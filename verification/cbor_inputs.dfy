/** What the CBOR decoder does on arbitrary bytes: it looks only at what it consumes, and what it
    accepts is in bounds and has its shortest encoding among the inputs that decode to it. */
module CborInputs {
  import opened Buffers
  import opened Cbor
  import opened CborCodec

  // ----- Locality -----

  /** From `at` up to `next`, a reads as b does from `to` on. */
  predicate Same(a: seq<byte>, at: nat, next: nat, b: seq<byte>, to: nat) {
    at <= next <= |a| && to + (next - at) <= |b| && a[at..next] == b[to..to + (next - at)]
  }

  lemma SameParts(a: seq<byte>, at: nat, mid: nat, next: nat, b: seq<byte>, to: nat)
    requires at <= mid <= next && Same(a, at, next, b, to)
    ensures Same(a, at, mid, b, to) && Same(a, mid, next, b, to + (mid - at))
  {
    var x, y := a[at..next], b[to..to + (next - at)];
    assert a[at..mid] == x[..mid - at];
    assert b[to..to + (mid - at)] == y[..mid - at];
    assert a[mid..next] == x[mid - at..];
    assert b[to + (mid - at)..to + (next - at)] == y[mid - at..];
  }

  function Moved<T>(r: Read<T>, at: nat, to: nat): Read<T>
    requires r.Done? ==> r.next >= at
  {
    if r.Done? then Done(r.value, to + (r.next - at)) else r
  }

  lemma HeadLocal(a: seq<byte>, at: nat, b: seq<byte>, to: nat)
    requires HeadAt(a, at).Done? && Same(a, at, HeadAt(a, at).next, b, to)
    ensures HeadAt(b, to) == Moved(HeadAt(a, at), at, to)
  {
    var n := HeadAt(a, at).next - at;
    var x, y := a[at..at + n], b[to..to + n];
    assert x[0] == a[at] && y[0] == b[to];
    if n >= 2 { assert x[1] == a[at + 1] && y[1] == b[to + 1]; }
    if n >= 3 { assert x[2] == a[at + 2] && y[2] == b[to + 2]; }
    if n >= 5 { assert x[3] == a[at + 3] && y[3] == b[to + 3] && x[4] == a[at + 4] && y[4] == b[to + 4]; }
  }

  function Rank(depth: nat): nat {
    if depth > 8 then 0 else 8 + 1 - depth
  }

  /** The head read the same in both places. */
  predicate HeadsAgree(a: seq<byte>, at: nat, b: seq<byte>, to: nat) {
    HeadAt(a, at).Done? && HeadAt(b, to) == Moved(HeadAt(a, at), at, to)
  }

  lemma LeafLocal(isUtf8: seq<byte> -> bool, a: seq<byte>, at: nat, b: seq<byte>, to: nat, depth: nat)
    requires ItemAt(isUtf8, a, at, depth).Done? && HeadsAgree(a, at, b, to)
    requires HeadAt(a, at).value.major !in {2, 3, 4, 5}
    ensures ItemAt(isUtf8, b, to, depth) == Moved(ItemAt(isUtf8, a, at, depth), at, to)
  {
    hide HeadAt, ItemsAt, EntriesAt;
  }

  lemma StringLocal(isUtf8: seq<byte> -> bool, a: seq<byte>, at: nat, b: seq<byte>, to: nat, depth: nat)
    requires ItemAt(isUtf8, a, at, depth).Done? && HeadsAgree(a, at, b, to)
    requires HeadAt(a, at).value.major in {2, 3}
    requires Same(a, HeadAt(a, at).next, ItemAt(isUtf8, a, at, depth).next, b, to + (HeadAt(a, at).next - at))
    ensures ItemAt(isUtf8, b, to, depth) == Moved(ItemAt(isUtf8, a, at, depth), at, to)
  {
    hide HeadAt, ItemsAt, EntriesAt;
  }

  lemma ListLocal(isUtf8: seq<byte> -> bool, a: seq<byte>, at: nat, b: seq<byte>, to: nat, depth: nat)
    requires ItemAt(isUtf8, a, at, depth).Done? && HeadsAgree(a, at, b, to) && HeadAt(a, at).value.major == 4
    requires var h, s := HeadAt(a, at), to + (HeadAt(a, at).next - at);
             ItemsAt(isUtf8, b, s, depth + 1, h.value.arg, [])
               == Moved(ItemsAt(isUtf8, a, h.next, depth + 1, h.value.arg, []), h.next, s)
    ensures ItemAt(isUtf8, b, to, depth) == Moved(ItemAt(isUtf8, a, at, depth), at, to)
  {
    hide HeadAt, ItemsAt, EntriesAt;
  }

  lemma TableLocal(isUtf8: seq<byte> -> bool, a: seq<byte>, at: nat, b: seq<byte>, to: nat, depth: nat)
    requires ItemAt(isUtf8, a, at, depth).Done? && HeadsAgree(a, at, b, to) && HeadAt(a, at).value.major == 5
    requires var h, s := HeadAt(a, at), to + (HeadAt(a, at).next - at);
             EntriesAt(isUtf8, b, s, depth + 1, h.value.arg, [])
               == Moved(EntriesAt(isUtf8, a, h.next, depth + 1, h.value.arg, []), h.next, s)
    ensures ItemAt(isUtf8, b, to, depth) == Moved(ItemAt(isUtf8, a, at, depth), at, to)
  {
    hide HeadAt, ItemsAt, EntriesAt;
  }

  /** What a decoded item starts from, and the end of what it read. */
  lemma ItemParts(isUtf8: seq<byte> -> bool, a: seq<byte>, at: nat, depth: nat)
    requires ItemAt(isUtf8, a, at, depth).Done?
    ensures depth <= 8 && HeadAt(a, at).Done? && HeadAt(a, at).next <= ItemAt(isUtf8, a, at, depth).next
    ensures var h, r := HeadAt(a, at), ItemAt(isUtf8, a, at, depth);
            && (h.value.major == 4 ==> var s := ItemsAt(isUtf8, a, h.next, depth + 1, h.value.arg, []); s.Done? && s.next == r.next)
            && (h.value.major == 5 ==> var s := EntriesAt(isUtf8, a, h.next, depth + 1, h.value.arg, []); s.Done? && s.next == r.next)
  {
    hide HeadAt, ItemsAt, EntriesAt;
  }

  /** A decoded item depends on the bytes it consumed and on nothing else, not even on where they are. */
  lemma {:induction false} ItemLocal(isUtf8: seq<byte> -> bool, a: seq<byte>, at: nat, b: seq<byte>, to: nat, depth: nat)
    requires ItemAt(isUtf8, a, at, depth).Done? && Same(a, at, ItemAt(isUtf8, a, at, depth).next, b, to)
    ensures ItemAt(isUtf8, b, to, depth) == Moved(ItemAt(isUtf8, a, at, depth), at, to)
    decreases Rank(depth), 0
  {
    hide HeadAt, ItemAt, ItemsAt, EntriesAt, Same;
    ItemParts(isUtf8, a, at, depth);
    var h := HeadAt(a, at);
    SameParts(a, at, h.next, ItemAt(isUtf8, a, at, depth).next, b, to);
    HeadLocal(a, at, b, to);
    var start := to + (h.next - at);
    if h.value.major == 4 {
      ItemsLocal(isUtf8, a, h.next, b, start, depth + 1, h.value.arg, []);
      ListLocal(isUtf8, a, at, b, to, depth);
    } else if h.value.major == 5 {
      EntriesLocal(isUtf8, a, h.next, b, start, depth + 1, h.value.arg, []);
      TableLocal(isUtf8, a, at, b, to, depth);
    } else if h.value.major == 2 || h.value.major == 3 {
      StringLocal(isUtf8, a, at, b, to, depth);
    } else {
      LeafLocal(isUtf8, a, at, b, to, depth);
    }
  }

  lemma {:induction false} ItemsLocal(isUtf8: seq<byte> -> bool, a: seq<byte>, at: nat, b: seq<byte>, to: nat, depth: nat, count: nat, out: seq<Value>)
    requires at <= |a| && ItemsAt(isUtf8, a, at, depth, count, out).Done?
    requires Same(a, at, ItemsAt(isUtf8, a, at, depth, count, out).next, b, to)
    ensures ItemsAt(isUtf8, b, to, depth, count, out) == Moved(ItemsAt(isUtf8, a, at, depth, count, out), at, to)
    decreases Rank(depth), count
  {
    hide ItemAt, EntriesAt, Same;
    if count > 0 {
      var r, v := ItemsAt(isUtf8, a, at, depth, count, out), ItemAt(isUtf8, a, at, depth);
      SameParts(a, at, v.next, r.next, b, to);
      ItemLocal(isUtf8, a, at, b, to, depth);
      ItemsLocal(isUtf8, a, v.next, b, to + (v.next - at), depth, count - 1, out + [v.value]);
    }
  }

  lemma {:induction false} EntriesLocal(isUtf8: seq<byte> -> bool, a: seq<byte>, at: nat, b: seq<byte>, to: nat, depth: nat, count: nat, out: seq<Entry>)
    requires at <= |a| && EntriesAt(isUtf8, a, at, depth, count, out).Done?
    requires Same(a, at, EntriesAt(isUtf8, a, at, depth, count, out).next, b, to)
    ensures EntriesAt(isUtf8, b, to, depth, count, out) == Moved(EntriesAt(isUtf8, a, at, depth, count, out), at, to)
    decreases Rank(depth), count
  {
    hide ItemAt, ItemsAt, Same, HasKey;
    if count > 0 {
      var r, k := EntriesAt(isUtf8, a, at, depth, count, out), ItemAt(isUtf8, a, at, depth);
      var v := ItemAt(isUtf8, a, k.next, depth);
      SameParts(a, at, k.next, r.next, b, to);
      ItemLocal(isUtf8, a, at, b, to, depth);
      var from := to + (k.next - at);
      SameParts(a, k.next, v.next, r.next, b, from);
      ItemLocal(isUtf8, a, k.next, b, from, depth);
      EntriesLocal(isUtf8, a, v.next, b, from + (v.next - k.next), depth, count - 1,
                   out + [Entry(KeyOf(k.value).value, v.value)]);
    }
  }

  /** No accepted input is a proper prefix of another. */
  lemma PrefixFree(isUtf8: seq<byte> -> bool, a: seq<byte>, b: seq<byte>)
    requires Decode(isUtf8, a).Value? && Decode(isUtf8, b).Value? && a <= b
    ensures a == b
  {
    hide ItemAt;
    assert a[0..|a|] == b[0..|a|];
    ItemLocal(isUtf8, a, 0, b, 0, 0);
  }

  // ----- What is accepted -----

  /** Items in a value, map keys included. */
  function Nodes(v: Value): (n: nat)
    ensures n >= 1
    decreases v
  {
    match v
    case List(items) => 1 + NodesOf(items)
    case Table(entries) => 1 + EntryNodes(entries)
    case _ => 1
  }

  function NodesOf(items: seq<Value>): nat
    decreases items
  {
    if |items| == 0 then 0 else Nodes(items[0]) + NodesOf(items[1..])
  }

  function EntryNodes(entries: seq<Entry>): nat
    decreases entries
  {
    if |entries| == 0 then 0 else
    var e := entries[0];
    assert e.value < e;
    1 + Nodes(e.value) + EntryNodes(entries[1..])
  }

  /** True of UTF-8: what follows a leading byte order mark is UTF-8 again. */
  ghost predicate BomDrops(isUtf8: seq<byte> -> bool) {
    forall t :: isUtf8(t) ==> isUtf8(StripBom(t))
  }

  /** The value is one the encoder takes, no longer when encoded than the bytes it came from, and has
      no more items than they are. */
  predicate Accounted(isUtf8: seq<byte> -> bool, v: Value, depth: nat, used: nat) {
    Fits(isUtf8, v, depth) && Distinct(v) && |Encode(isUtf8, v, depth)| <= used && Nodes(v) <= used
  }

  predicate ItemsAccounted(isUtf8: seq<byte> -> bool, items: seq<Value>, depth: nat, used: nat) {
    && ItemsFit(isUtf8, items, depth) && DistinctItems(items)
    && |ItemsBytes(isUtf8, items, depth)| <= used && NodesOf(items) <= used
  }

  predicate EntriesAccounted(isUtf8: seq<byte> -> bool, entries: seq<Entry>, seen: seq<Entry>, depth: nat, used: nat) {
    && EntriesFit(isUtf8, entries, depth) && DistinctEntries(entries, seen)
    && |EntriesBytes(isUtf8, entries, depth)| <= used && EntryNodes(entries) <= used
  }

  /** Longer forms of an argument are accepted; the encoder's is never longer. */
  lemma HeadIsShortest(bytes: seq<byte>, at: nat)
    requires HeadAt(bytes, at).Done?
    ensures var h := HeadAt(bytes, at); |HeadBytes(h.value.major, h.value.arg)| <= h.next - at
  {
  }

  lemma {:induction false} ItemAccounted(isUtf8: seq<byte> -> bool, bytes: seq<byte>, at: nat, depth: nat)
    requires BomDrops(isUtf8) && ItemAt(isUtf8, bytes, at, depth).Done?
    ensures var r := ItemAt(isUtf8, bytes, at, depth); Accounted(isUtf8, r.value, depth, r.next - at)
    decreases Rank(depth), 0
  {
    hide HeadAt, ItemsAt, EntriesAt, HeadBytes, BomDrops, ItemsAccounted, EntriesAccounted;
    var h := HeadAt(bytes, at);
    var arg, start := h.value.arg, h.next;
    HeadIsShortest(bytes, at);
    match h.value.major
    case 2 =>
    case 3 =>
      TextFits(isUtf8, bytes[start..start + arg]);
      HeadGrows(3, |StripBom(bytes[start..start + arg])|, arg);
    case 4 =>
      ListAccounted(isUtf8, bytes, start, depth, arg);
    case 5 =>
      TableAccounted(isUtf8, bytes, start, depth, arg);
    case _ =>
  }

  lemma HeadGrows(major: nat, a: nat, b: nat)
    requires major < 8 && a <= b < 0x1_0000_0000
    ensures |HeadBytes(major, a)| <= |HeadBytes(major, b)|
  {
  }

  lemma TextFits(isUtf8: seq<byte> -> bool, t: seq<byte>)
    requires BomDrops(isUtf8) && isUtf8(t)
    ensures isUtf8(StripBom(t))
  {
  }

  lemma {:induction false} ListAccounted(isUtf8: seq<byte> -> bool, bytes: seq<byte>, start: nat, depth: nat, count: nat)
    requires BomDrops(isUtf8) && depth <= 8 && start <= |bytes|
    requires ItemsAt(isUtf8, bytes, start, depth + 1, count, []).Done?
    ensures var r := ItemsAt(isUtf8, bytes, start, depth + 1, count, []);
            && |r.value| == count && ItemsFit(isUtf8, r.value, depth + 1) && DistinctItems(r.value)
            && |ItemsBytes(isUtf8, r.value, depth + 1)| <= r.next - start && NodesOf(r.value) <= r.next - start
    decreases Rank(depth + 1), count + 1
  {
    hide ItemAt, EntriesAt, Fits, BomDrops;
    var r := ItemsAt(isUtf8, bytes, start, depth + 1, count, []);
    ItemsAreAccounted(isUtf8, bytes, start, depth + 1, count, []);
    assert r.value[0..] == r.value;
  }

  lemma {:induction false} ItemsAreAccounted(isUtf8: seq<byte> -> bool, bytes: seq<byte>, at: nat, depth: nat, count: nat, out: seq<Value>)
    requires BomDrops(isUtf8) && at <= |bytes| && ItemsAt(isUtf8, bytes, at, depth, count, out).Done?
    ensures var r := ItemsAt(isUtf8, bytes, at, depth, count, out);
            && |r.value| == |out| + count && out <= r.value
            && ItemsAccounted(isUtf8, r.value[|out|..], depth, r.next - at)
    decreases Rank(depth), count
  {
    hide ItemAt, EntriesAt, Fits, Encode, Distinct, Nodes, BomDrops;
    if count > 0 {
      var r, v := ItemsAt(isUtf8, bytes, at, depth, count, out), ItemAt(isUtf8, bytes, at, depth);
      ItemAccounted(isUtf8, bytes, at, depth);
      ItemsAreAccounted(isUtf8, bytes, v.next, depth, count - 1, out + [v.value]);
      var items := r.value[|out|..];
      assert items[1..] == r.value[|out| + 1..];
      assert items[0] == (out + [v.value])[|out|] == v.value;
    }
  }

  lemma {:induction false} TableAccounted(isUtf8: seq<byte> -> bool, bytes: seq<byte>, start: nat, depth: nat, count: nat)
    requires BomDrops(isUtf8) && depth <= 8 && start <= |bytes|
    requires EntriesAt(isUtf8, bytes, start, depth + 1, count, []).Done?
    ensures var r := EntriesAt(isUtf8, bytes, start, depth + 1, count, []);
            && |r.value| == count && EntriesFit(isUtf8, r.value, depth + 1) && DistinctEntries(r.value, [])
            && |EntriesBytes(isUtf8, r.value, depth + 1)| <= r.next - start && EntryNodes(r.value) <= r.next - start
    decreases Rank(depth + 1), count + 1
  {
    hide ItemAt, ItemsAt, Fits, BomDrops;
    var r := EntriesAt(isUtf8, bytes, start, depth + 1, count, []);
    EntriesAreAccounted(isUtf8, bytes, start, depth + 1, count, []);
    assert r.value[0..] == r.value;
  }

  /** A decoded key encodes as the value it came from did. */
  lemma KeyAccounted(isUtf8: seq<byte> -> bool, v: Value, depth: nat, used: nat)
    requires Accounted(isUtf8, v, depth, used) && KeyOf(v).Some?
    ensures var k := KeyOf(v).value; KeyFits(isUtf8, k, depth) && |KeyBytes(isUtf8, k, depth)| <= used && used >= 1
  {
  }

  lemma {:induction false} EntriesAreAccounted(isUtf8: seq<byte> -> bool, bytes: seq<byte>, at: nat, depth: nat, count: nat, out: seq<Entry>)
    requires BomDrops(isUtf8) && at <= |bytes| && EntriesAt(isUtf8, bytes, at, depth, count, out).Done?
    ensures var r := EntriesAt(isUtf8, bytes, at, depth, count, out);
            && |r.value| == |out| + count && out <= r.value
            && EntriesAccounted(isUtf8, r.value[|out|..], out, depth, r.next - at)
    decreases Rank(depth), count
  {
    hide ItemAt, ItemsAt, Fits, Encode, Distinct, Nodes, BomDrops, HasKey, KeyFits, KeyBytes;
    if count > 0 {
      var r, k := EntriesAt(isUtf8, bytes, at, depth, count, out), ItemAt(isUtf8, bytes, at, depth);
      var v := ItemAt(isUtf8, bytes, k.next, depth);
      var e := Entry(KeyOf(k.value).value, v.value);
      ItemAccounted(isUtf8, bytes, at, depth);
      KeyAccounted(isUtf8, k.value, depth, k.next - at);
      ItemAccounted(isUtf8, bytes, k.next, depth);
      EntriesAreAccounted(isUtf8, bytes, v.next, depth, count - 1, out + [e]);
      var entries := r.value[|out|..];
      assert entries[1..] == r.value[|out| + 1..];
      assert entries[0] == (out + [e])[|out|] == e;
      assert e.value < e;
    }
  }

  /** Every accepted value is within the bounds with distinct keys and no more items than bytes;
      the encoder's bytes for it decode to it, up to its byte order marks, and are no longer. */
  lemma AcceptedIsInBounds(isUtf8: seq<byte> -> bool, bytes: seq<byte>)
    requires BomDrops(isUtf8) && Decode(isUtf8, bytes).Value?
    ensures var v := Decode(isUtf8, bytes).value;
            && Fits(isUtf8, v, 0) && Distinct(v) && Nodes(v) <= |bytes|
            && |Encode(isUtf8, v, 0)| <= |bytes|
            && (NoBom(v) ==> Decode(isUtf8, Encode(isUtf8, v, 0)) == Decode(isUtf8, bytes))
  {
    hide ItemAt, Fits, Encode, Distinct, Nodes, NoBom, BomDrops;
    ItemAccounted(isUtf8, bytes, 0, 0);
    DecodeEncode(isUtf8, Decode(isUtf8, bytes).value);
  }

  /** Arguments need not be in their shortest form, so encodings are not unique. */
  lemma TwoEncodings(isUtf8: seq<byte> -> bool)
    ensures Decode(isUtf8, [0x05]) == Decode(isUtf8, [0x18, 0x05]) == Decode(isUtf8, [0x19, 0x00, 0x05])
      == Decoded.Value(Num(5))
  {
  }

  // ----- Heads -----

  /** What fits the first byte, or one, two or four bytes after it. */
  predicate Fitting(arg: nat, width: nat) {
    (width == 0 && arg < 24) || (width == 1 && arg < 0x100) || (width == 2 && arg < 0x1_0000) || (width == 4 && arg < 0x1_0000_0000)
  }

  /** A head of this width, most significant byte first (section 3 of RFC 8949). */
  function HeadForm(major: nat, arg: nat, width: nat): seq<byte>
    requires major < 8 && Fitting(arg, width)
  {
    if width == 0 then [32 * major + arg]
    else if width == 1 then [32 * major + 24, arg]
    else if width == 2 then [32 * major + 25, arg / 0x100, Low(arg)]
    else [32 * major + 26, arg / 0x100_0000, Low(arg / 0x1_0000), Low(arg / 0x100), Low(arg)]
  }

  predicate FormAt(bytes: seq<byte>, at: nat, h: Head, next: nat, width: nat) {
    h.major < 8 && Fitting(h.arg, width) && Holds(bytes, at, HeadForm(h.major, h.arg, width)) && next == at + 1 + width
  }

  lemma FormReads(bytes: seq<byte>, at: nat, h: Head, next: nat, width: nat)
    requires FormAt(bytes, at, h, next, width)
    ensures HeadAt(bytes, at) == Done(h, next)
  {
    var form := HeadForm(h.major, h.arg, width);
    var part := bytes[at..at + |form|];
    assert part == form && bytes[at] == part[0];
    if width >= 1 { assert bytes[at + 1] == part[1]; }
    if width >= 2 { assert bytes[at + 2] == part[2]; }
    if width == 4 { assert bytes[at + 3] == part[3] && bytes[at + 4] == part[4]; }
    InitialByte(h.major, if width == 0 then h.arg else if width == 1 then 24 else if width == 2 then 25 else 26);
    if width == 2 { TwoOf(h.arg); }
    if width == 4 { FourOf(h.arg); }
  }

  lemma InitialByte(major: nat, low: nat)
    requires low < 32
    ensures (32 * major + low) / 32 == major && (32 * major + low) % 32 == low
  {
  }

  lemma TwoOf(n: nat)
    requires n < 0x1_0000
    ensures 0x100 * (n / 0x100) + Low(n) as int == n
  {
  }

  lemma FourOf(n: nat)
    requires n < 0x1_0000_0000
    ensures 0x1_0000 * (0x100 * (n / 0x100_0000) + Low(n / 0x1_0000) as int) + (0x100 * Low(n / 0x100) as int + Low(n) as int) == n
  {
    FourBytes(n);
  }

  lemma BytesOfTwo(a: byte, b: byte)
    ensures var n := 0x100 * a as int + b as int; n / 0x100 == a as int && Low(n) == b
  {
  }

  lemma BytesOfFour(a: byte, b: byte, c: byte, d: byte)
    ensures var n := 0x1_0000 * (0x100 * a as int + b as int) + (0x100 * c as int + d as int);
      n / 0x100_0000 == a as int && Low(n / 0x1_0000) == b && Low(n / 0x100) == c && Low(n) == d
  {
    var n := 0x1_0000 * (0x100 * a as int + b as int) + (0x100 * c as int + d as int);
    assert n / 0x100 == 0x1_0000 * a as int + 0x100 * b as int + c as int;
    assert n / 0x1_0000 == 0x100 * a as int + b as int;
    assert n / 0x100_0000 == a as int;
  }

  lemma ReadsForm(bytes: seq<byte>, at: nat) returns (width: nat)
    requires HeadAt(bytes, at).Done?
    ensures FormAt(bytes, at, HeadAt(bytes, at).value, HeadAt(bytes, at).next, width)
  {
    var low := bytes[at] as int % 32;
    width := if low < 24 then 0 else if low == 24 then 1 else if low == 25 then 2 else 4;
    if width == 0 {
      assert bytes[at..at + 1] == [bytes[at]];
    } else if width == 1 {
      assert bytes[at..at + 2] == [bytes[at], bytes[at + 1]];
    } else if width == 2 {
      assert bytes[at..at + 3] == [bytes[at], bytes[at + 1], bytes[at + 2]];
      BytesOfTwo(bytes[at + 1], bytes[at + 2]);
    } else {
      assert bytes[at..at + 5] == [bytes[at], bytes[at + 1], bytes[at + 2], bytes[at + 3], bytes[at + 4]];
      BytesOfFour(bytes[at + 1], bytes[at + 2], bytes[at + 3], bytes[at + 4]);
    }
  }

  /** A head is read exactly where one of its four forms stands, shortest or not. */
  lemma HeadWhen(bytes: seq<byte>, at: nat, h: Head, next: nat)
    ensures HeadAt(bytes, at) == Done(h, next) <==> exists width :: FormAt(bytes, at, h, next, width)
  {
    hide FormAt, HeadAt;
    if HeadAt(bytes, at) == Done(h, next) {
      var width := ReadsForm(bytes, at);
    }
    if width: nat :| FormAt(bytes, at, h, next, width) {
      FormReads(bytes, at, h, next, width);
    }
  }
}
