/** Which accepted CBOR inputs are the reference encoding of what they decode to. */
module CborCanonical {
  import opened Buffers
  import opened Cbor
  import opened CborCodec
  import opened CborInputs

  // ----- Shortest form, head by head -----

  /** The head at this place uses as few bytes as its argument needs. */
  predicate ShortHead(bytes: seq<byte>, at: nat) {
    var h := HeadAt(bytes, at);
    h.Done? && h.next - at == |HeadBytes(h.value.major, h.value.arg)|
  }

  /** Every head of the item is in shortest form, and no text of it begins with a byte order mark. */
  predicate ShortItem(isUtf8: seq<byte> -> bool, bytes: seq<byte>, at: nat, depth: nat)
    requires ItemAt(isUtf8, bytes, at, depth).Done?
    decreases Rank(depth), 0
  {
    var h := HeadAt(bytes, at);
    && ShortHead(bytes, at)
    && match h.value.major
       case 3 => !(BOM <= bytes[h.next..h.next + h.value.arg])
       case 4 => ShortItems(isUtf8, bytes, h.next, depth + 1, h.value.arg, [])
       case 5 => ShortEntries(isUtf8, bytes, h.next, depth + 1, h.value.arg, [])
       case _ => true
  }

  predicate ShortItems(isUtf8: seq<byte> -> bool, bytes: seq<byte>, at: nat, depth: nat, count: nat, out: seq<Value>)
    requires ItemsAt(isUtf8, bytes, at, depth, count, out).Done?
    decreases Rank(depth), count
  {
    count > 0 ==>
      var v := ItemAt(isUtf8, bytes, at, depth);
      ShortItem(isUtf8, bytes, at, depth) && ShortItems(isUtf8, bytes, v.next, depth, count - 1, out + [v.value])
  }

  predicate ShortEntries(isUtf8: seq<byte> -> bool, bytes: seq<byte>, at: nat, depth: nat, count: nat, out: seq<Entry>)
    requires EntriesAt(isUtf8, bytes, at, depth, count, out).Done?
    decreases Rank(depth), count
  {
    count > 0 ==>
      var k := ItemAt(isUtf8, bytes, at, depth);
      var v := ItemAt(isUtf8, bytes, k.next, depth);
      && ShortItem(isUtf8, bytes, at, depth) && ShortItem(isUtf8, bytes, k.next, depth)
      && ShortEntries(isUtf8, bytes, v.next, depth, count - 1, out + [Entry(KeyOf(k.value).value, v.value)])
  }

  /** Every head of the whole input is in shortest form, and no text begins with a byte order mark. */
  predicate Shortest(isUtf8: seq<byte> -> bool, bytes: seq<byte>)
    requires Decode(isUtf8, bytes).Value?
  {
    ShortItem(isUtf8, bytes, 0, 0)
  }

  // ----- Such an item is its encoding -----

  /** From `at` up to `next` stand exactly these bytes. */
  predicate Exactly(bytes: seq<byte>, at: nat, next: nat, part: seq<byte>) {
    at <= next <= |bytes| && bytes[at..next] == part
  }

  lemma ExactlyJoins(bytes: seq<byte>, at: nat, mid: nat, next: nat, a: seq<byte>, b: seq<byte>)
    requires Exactly(bytes, at, mid, a) && Exactly(bytes, mid, next, b)
    ensures Exactly(bytes, at, next, a + b)
  {
    assert bytes[at..next] == bytes[at..mid] + bytes[mid..next];
  }

  /** A head in shortest form is the encoder's. */
  lemma ShortHeadIs(bytes: seq<byte>, at: nat)
    requires ShortHead(bytes, at)
    ensures var h := HeadAt(bytes, at); Exactly(bytes, at, h.next, HeadBytes(h.value.major, h.value.arg))
  {
    var h := HeadAt(bytes, at);
    var s := HeadBytes(h.value.major, h.value.arg);
    if |s| == 5 {
      FourBack(bytes, at + 1);
      assert bytes[at..at + 5] == s;
    } else if |s| == 3 {
      assert bytes[at..at + 3] == s;
    } else if |s| == 2 {
      assert bytes[at..at + 2] == s;
    } else {
      assert bytes[at..at + 1] == s;
    }
  }

  lemma FourBack(bytes: seq<byte>, at: nat)
    requires at + 4 <= |bytes|
    ensures var n := Big32(bytes, at);
            && n / 0x100_0000 == bytes[at] && Low(n / 0x1_0000) == bytes[at + 1]
            && Low(n / 0x100) == bytes[at + 2] && Low(n) == bytes[at + 3]
  {
  }

  /** The encoding is exactly the bytes read when the item is in shortest form, and shorter otherwise. */
  predicate Settled(short: bool, bytes: seq<byte>, at: nat, next: nat, encoded: seq<byte>) {
    && (short ==> Exactly(bytes, at, next, encoded))
    && (!short ==> |encoded| < next - at)
  }

  lemma SettledJoins(x: bool, y: bool, bytes: seq<byte>, at: nat, mid: nat, next: nat, a: seq<byte>, b: seq<byte>)
    requires Settled(x, bytes, at, mid, a) && Settled(y, bytes, mid, next, b)
    ensures Settled(x && y, bytes, at, next, a + b)
  {
    if x && y { ExactlyJoins(bytes, at, mid, next, a, b); }
  }

  lemma HeadSettled(bytes: seq<byte>, at: nat)
    requires HeadAt(bytes, at).Done?
    ensures var h := HeadAt(bytes, at);
            Settled(ShortHead(bytes, at), bytes, at, h.next, HeadBytes(h.value.major, h.value.arg))
  {
    hide HeadAt, HeadBytes;
    HeadIsShortest(bytes, at);
    if ShortHead(bytes, at) { ShortHeadIs(bytes, at); }
  }

  lemma NumberSettled(isUtf8: seq<byte> -> bool, bytes: seq<byte>, at: nat, depth: nat)
    requires ItemAt(isUtf8, bytes, at, depth).Done? && HeadAt(bytes, at).value.major !in {2, 3, 4, 5}
    ensures var r := ItemAt(isUtf8, bytes, at, depth);
            && Fits(isUtf8, r.value, depth)
            && Settled(ShortItem(isUtf8, bytes, at, depth), bytes, at, r.next, Encode(isUtf8, r.value, depth))
  {
    hide HeadAt, HeadBytes, ShortHead, Settled, ItemsAt, EntriesAt;
    HeadSettled(bytes, at);
  }

  lemma BytesSettled(isUtf8: seq<byte> -> bool, bytes: seq<byte>, at: nat, depth: nat)
    requires ItemAt(isUtf8, bytes, at, depth).Done? && HeadAt(bytes, at).value.major == 2
    ensures var r := ItemAt(isUtf8, bytes, at, depth);
            && Fits(isUtf8, r.value, depth)
            && Settled(ShortItem(isUtf8, bytes, at, depth), bytes, at, r.next, Encode(isUtf8, r.value, depth))
  {
    hide HeadAt, HeadBytes, ShortHead, ItemsAt, EntriesAt;
    var h, r := HeadAt(bytes, at), ItemAt(isUtf8, bytes, at, depth);
    HeadSettled(bytes, at);
    SettledJoins(ShortHead(bytes, at), true, bytes, at, h.next, r.next, HeadBytes(2, h.value.arg), r.value.bytes);
  }

  /** Without its mark a text is shorter, and its head no longer. */
  lemma TextSettled(isUtf8: seq<byte> -> bool, bytes: seq<byte>, at: nat, depth: nat)
    requires BomDrops(isUtf8) && ItemAt(isUtf8, bytes, at, depth).Done? && HeadAt(bytes, at).value.major == 3
    ensures var r := ItemAt(isUtf8, bytes, at, depth);
            && Fits(isUtf8, r.value, depth)
            && Settled(ShortItem(isUtf8, bytes, at, depth), bytes, at, r.next, Encode(isUtf8, r.value, depth))
  {
    hide HeadAt, HeadBytes, ItemsAt, EntriesAt, BomDrops;
    var h, r := HeadAt(bytes, at), ItemAt(isUtf8, bytes, at, depth);
    var raw := bytes[h.next..h.next + h.value.arg];
    TextFits(isUtf8, raw);
    HeadSettled(bytes, at);
    if BOM <= raw {
      HeadIsShortest(bytes, at);
      HeadGrows(3, |StripBom(raw)|, h.value.arg);
    } else {
      SettledJoins(ShortHead(bytes, at), true, bytes, at, h.next, r.next, HeadBytes(3, h.value.arg), raw);
    }
  }

  lemma {:induction false} ItemSettled(isUtf8: seq<byte> -> bool, bytes: seq<byte>, at: nat, depth: nat)
    requires BomDrops(isUtf8) && ItemAt(isUtf8, bytes, at, depth).Done?
    ensures var r := ItemAt(isUtf8, bytes, at, depth);
            && Fits(isUtf8, r.value, depth)
            && Settled(ShortItem(isUtf8, bytes, at, depth), bytes, at, r.next, Encode(isUtf8, r.value, depth))
    decreases Rank(depth), 0
  {
    hide HeadAt, ItemAt, ItemsAt, EntriesAt, HeadBytes, BomDrops, ShortItem, Encode, Fits, Settled;
    ItemParts(isUtf8, bytes, at, depth);
    var h := HeadAt(bytes, at);
    if h.value.major == 4 {
      ListIs(isUtf8, bytes, at, depth);
      ItemsSettled(isUtf8, bytes, h.next, depth + 1, h.value.arg, []);
      ListSettled(isUtf8, bytes, at, depth);
    } else if h.value.major == 5 {
      TableIs(isUtf8, bytes, at, depth);
      EntriesSettled(isUtf8, bytes, h.next, depth + 1, h.value.arg, []);
      TableSettled(isUtf8, bytes, at, depth);
    } else if h.value.major == 2 {
      BytesSettled(isUtf8, bytes, at, depth);
    } else if h.value.major == 3 {
      TextSettled(isUtf8, bytes, at, depth);
    } else {
      NumberSettled(isUtf8, bytes, at, depth);
    }
  }

  lemma ListIs(isUtf8: seq<byte> -> bool, bytes: seq<byte>, at: nat, depth: nat)
    requires ItemAt(isUtf8, bytes, at, depth).Done? && HeadAt(bytes, at).value.major == 4
    ensures var h := HeadAt(bytes, at);
            var s := ItemsAt(isUtf8, bytes, h.next, depth + 1, h.value.arg, []);
            && h.Done? && h.value.arg <= 64 && depth <= 8
            && s.Done? && ItemAt(isUtf8, bytes, at, depth) == Done(List(s.value), s.next)
            && ShortItem(isUtf8, bytes, at, depth)
              == (ShortHead(bytes, at) && ShortItems(isUtf8, bytes, h.next, depth + 1, h.value.arg, []))
  {
    hide HeadAt, ItemsAt, EntriesAt, ShortHead, ShortItems;
  }

  lemma TableIs(isUtf8: seq<byte> -> bool, bytes: seq<byte>, at: nat, depth: nat)
    requires ItemAt(isUtf8, bytes, at, depth).Done? && HeadAt(bytes, at).value.major == 5
    ensures var h := HeadAt(bytes, at);
            var s := EntriesAt(isUtf8, bytes, h.next, depth + 1, h.value.arg, []);
            && h.Done? && h.value.arg <= 64 && depth <= 8
            && s.Done? && ItemAt(isUtf8, bytes, at, depth) == Done(Table(s.value), s.next)
            && ShortItem(isUtf8, bytes, at, depth)
              == (ShortHead(bytes, at) && ShortEntries(isUtf8, bytes, h.next, depth + 1, h.value.arg, []))
  {
    hide HeadAt, ItemsAt, EntriesAt, ShortHead, ShortEntries;
  }

  lemma ListSettled(isUtf8: seq<byte> -> bool, bytes: seq<byte>, at: nat, depth: nat)
    requires ItemAt(isUtf8, bytes, at, depth).Done? && HeadAt(bytes, at).value.major == 4
    requires ItemsAre(isUtf8, bytes, HeadAt(bytes, at).next, depth + 1, HeadAt(bytes, at).value.arg, [])
    ensures var r := ItemAt(isUtf8, bytes, at, depth);
            && Fits(isUtf8, r.value, depth)
            && Settled(ShortItem(isUtf8, bytes, at, depth), bytes, at, r.next, Encode(isUtf8, r.value, depth))
  {
    hide HeadAt, ItemAt, ItemsAt, HeadBytes, ShortItem, ShortItems, ShortHead, Settled, ItemsFit, ItemsBytes;
    ListIs(isUtf8, bytes, at, depth);
    var h, r := HeadAt(bytes, at), ItemAt(isUtf8, bytes, at, depth);
    HeadSettled(bytes, at);
    assert r.value.items[0..] == r.value.items;
    SettledJoins(ShortHead(bytes, at), ShortItems(isUtf8, bytes, h.next, depth + 1, h.value.arg, []), bytes, at, h.next, r.next,
                 HeadBytes(4, h.value.arg), ItemsBytes(isUtf8, r.value.items, depth + 1));
  }

  lemma TableSettled(isUtf8: seq<byte> -> bool, bytes: seq<byte>, at: nat, depth: nat)
    requires ItemAt(isUtf8, bytes, at, depth).Done? && HeadAt(bytes, at).value.major == 5
    requires EntriesAre(isUtf8, bytes, HeadAt(bytes, at).next, depth + 1, HeadAt(bytes, at).value.arg, [])
    ensures var r := ItemAt(isUtf8, bytes, at, depth);
            && Fits(isUtf8, r.value, depth)
            && Settled(ShortItem(isUtf8, bytes, at, depth), bytes, at, r.next, Encode(isUtf8, r.value, depth))
  {
    hide HeadAt, ItemAt, EntriesAt, HeadBytes, ShortItem, ShortEntries, ShortHead, Settled, EntriesFit, EntriesBytes;
    TableIs(isUtf8, bytes, at, depth);
    var h, r := HeadAt(bytes, at), ItemAt(isUtf8, bytes, at, depth);
    HeadSettled(bytes, at);
    assert r.value.entries[0..] == r.value.entries;
    SettledJoins(ShortHead(bytes, at), ShortEntries(isUtf8, bytes, h.next, depth + 1, h.value.arg, []), bytes, at, h.next, r.next,
                 HeadBytes(5, h.value.arg), EntriesBytes(isUtf8, r.value.entries, depth + 1));
  }

  /** The items read after `out` encode to the bytes read when they are in shortest form, and to fewer otherwise. */
  predicate ItemsAre(isUtf8: seq<byte> -> bool, bytes: seq<byte>, at: nat, depth: nat, count: nat, out: seq<Value>) {
    var r := ItemsAt(isUtf8, bytes, at, depth, count, out);
    && r.Done? && |r.value| == |out| + count && out <= r.value
    && ItemsFit(isUtf8, r.value[|out|..], depth)
    && Settled(ShortItems(isUtf8, bytes, at, depth, count, out), bytes, at, r.next,
               ItemsBytes(isUtf8, r.value[|out|..], depth))
  }

  predicate EntriesAre(isUtf8: seq<byte> -> bool, bytes: seq<byte>, at: nat, depth: nat, count: nat, out: seq<Entry>) {
    var r := EntriesAt(isUtf8, bytes, at, depth, count, out);
    && r.Done? && |r.value| == |out| + count && out <= r.value
    && EntriesFit(isUtf8, r.value[|out|..], depth)
    && Settled(ShortEntries(isUtf8, bytes, at, depth, count, out), bytes, at, r.next,
               EntriesBytes(isUtf8, r.value[|out|..], depth))
  }

  lemma NothingSettled(bytes: seq<byte>, at: nat)
    requires at <= |bytes|
    ensures Settled(true, bytes, at, at, [])
  {
  }

  lemma {:induction false} ItemsSettled(isUtf8: seq<byte> -> bool, bytes: seq<byte>, at: nat, depth: nat, count: nat, out: seq<Value>)
    requires BomDrops(isUtf8) && at <= |bytes| && ItemsAt(isUtf8, bytes, at, depth, count, out).Done?
    ensures ItemsAre(isUtf8, bytes, at, depth, count, out)
    decreases Rank(depth), count
  {
    hide ItemAt, ShortItem, Fits, Encode, Settled, BomDrops;
    if count == 0 {
      NothingSettled(bytes, at);
    } else {
      var r, v := ItemsAt(isUtf8, bytes, at, depth, count, out), ItemAt(isUtf8, bytes, at, depth);
      ItemSettled(isUtf8, bytes, at, depth);
      ItemsSettled(isUtf8, bytes, v.next, depth, count - 1, out + [v.value]);
      var items := r.value[|out|..];
      assert items[1..] == r.value[|out| + 1..];
      assert items[0] == (out + [v.value])[|out|] == v.value;
      SettledJoins(ShortItem(isUtf8, bytes, at, depth), ShortItems(isUtf8, bytes, v.next, depth, count - 1, out + [v.value]),
                   bytes, at, v.next, r.next, Encode(isUtf8, v.value, depth), ItemsBytes(isUtf8, items[1..], depth));
    }
  }

  /** A key encodes as the item it was read from does. */
  lemma KeySettled(isUtf8: seq<byte> -> bool, v: Value, depth: nat)
    requires Fits(isUtf8, v, depth) && KeyOf(v).Some?
    ensures var k := KeyOf(v).value; KeyFits(isUtf8, k, depth) && KeyBytes(isUtf8, k, depth) == Encode(isUtf8, v, depth)
  {
  }

  lemma {:induction false} EntriesSettled(isUtf8: seq<byte> -> bool, bytes: seq<byte>, at: nat, depth: nat, count: nat, out: seq<Entry>)
    requires BomDrops(isUtf8) && at <= |bytes| && EntriesAt(isUtf8, bytes, at, depth, count, out).Done?
    ensures EntriesAre(isUtf8, bytes, at, depth, count, out)
    decreases Rank(depth), count
  {
    hide ItemAt, ShortItem, Fits, Encode, Settled, BomDrops, HasKey, KeyFits, KeyBytes;
    if count == 0 {
      NothingSettled(bytes, at);
    } else {
      var r, k := EntriesAt(isUtf8, bytes, at, depth, count, out), ItemAt(isUtf8, bytes, at, depth);
      var v := ItemAt(isUtf8, bytes, k.next, depth);
      var e := Entry(KeyOf(k.value).value, v.value);
      ItemSettled(isUtf8, bytes, at, depth);
      KeySettled(isUtf8, k.value, depth);
      ItemSettled(isUtf8, bytes, k.next, depth);
      EntriesSettled(isUtf8, bytes, v.next, depth, count - 1, out + [e]);
      var entries := r.value[|out|..];
      assert entries[1..] == r.value[|out| + 1..];
      assert entries[0] == (out + [e])[|out|] == e;
      assert e.value < e;
      var a, b := KeyBytes(isUtf8, e.key, depth), Encode(isUtf8, e.value, depth);
      var x, y := ShortItem(isUtf8, bytes, at, depth), ShortItem(isUtf8, bytes, k.next, depth);
      SettledJoins(x, y, bytes, at, k.next, v.next, a, b);
      SettledJoins(x && y, ShortEntries(isUtf8, bytes, v.next, depth, count - 1, out + [e]),
                   bytes, at, v.next, r.next, a + b, EntriesBytes(isUtf8, entries[1..], depth));
    }
  }

  // ----- Canonical inputs -----

  /** An accepted input is the reference encoding of its value exactly when every head of it is in shortest form
      and no text of it begins with a byte order mark. */
  lemma CanonicalWhen(isUtf8: seq<byte> -> bool, bytes: seq<byte>)
    requires BomDrops(isUtf8) && Decode(isUtf8, bytes).Value?
    ensures Fits(isUtf8, Decode(isUtf8, bytes).value, 0)
    ensures Encode(isUtf8, Decode(isUtf8, bytes).value, 0) == bytes <==> Shortest(isUtf8, bytes)
  {
    hide ItemAt, ShortItem, Fits, Encode, BomDrops;
    ItemSettled(isUtf8, bytes, 0, 0);
    assert bytes[0..|bytes|] == bytes;
  }

  /** Two such inputs that decode to one value are the same. */
  lemma CanonicalIsUnique(isUtf8: seq<byte> -> bool, a: seq<byte>, b: seq<byte>)
    requires BomDrops(isUtf8) && Decode(isUtf8, a).Value? && Decode(isUtf8, a) == Decode(isUtf8, b)
    requires Shortest(isUtf8, a) && Shortest(isUtf8, b)
    ensures a == b
  {
    hide Decode, Shortest, Fits, Encode, BomDrops;
    CanonicalWhen(isUtf8, a);
    CanonicalWhen(isUtf8, b);
  }

  /** And any other input for that value is longer. */
  lemma CanonicalIsShortest(isUtf8: seq<byte> -> bool, a: seq<byte>, b: seq<byte>)
    requires BomDrops(isUtf8) && Decode(isUtf8, a).Value? && Decode(isUtf8, a) == Decode(isUtf8, b)
    requires Shortest(isUtf8, a)
    ensures a == b || |a| < |b|
  {
    hide ItemAt, ShortItem, Fits, Encode, BomDrops;
    CanonicalWhen(isUtf8, a);
    ItemSettled(isUtf8, b, 0, 0);
    assert b[0..|b|] == b;
  }
}
