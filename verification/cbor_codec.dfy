/** A reference definite-length encoder (RFC 8949 section 3), what decoding makes of its output,
    and what the decoder does on every input. */
module CborCodec {
  import opened Buffers
  import opened Cbor

  // ----- The encoder -----

  /** The shortest head. */
  function HeadBytes(major: nat, arg: nat): (s: seq<byte>)
    requires major < 8 && arg < 0x1_0000_0000
    ensures 1 <= |s| <= 5
  {
    if arg < 24 then [32 * major + arg]
    else if arg < 0x100 then [32 * major + 24, arg]
    else if arg < 0x1_0000 then [32 * major + 25, arg / 0x100, Low(arg)]
    else [32 * major + 26, arg / 0x100_0000, Low(arg / 0x1_0000), Low(arg / 0x100), Low(arg)]
  }

  function KeyValue(k: Key): Value {
    match k
    case Label(n) => Num(n)
    case Name(t) => Text(t)
  }

  predicate Fits(isUtf8: seq<byte> -> bool, v: Value, depth: nat)
    decreases v
  {
    && depth <= 8
    && match v
       case Num(n) => -0x1_0000_0000 <= n < 0x1_0000_0000
       case Bytes(s) => |s| <= 8192
       case Text(s) => |s| <= 8192 && isUtf8(s)
       case List(items) => |items| <= 64 && ItemsFit(isUtf8, items, depth + 1)
       case Table(entries) => |entries| <= 64 && EntriesFit(isUtf8, entries, depth + 1)
       case Bool(_) => true
       case Null => true
  }

  predicate ItemsFit(isUtf8: seq<byte> -> bool, items: seq<Value>, depth: nat)
    decreases items
  {
    |items| > 0 ==> Fits(isUtf8, items[0], depth) && ItemsFit(isUtf8, items[1..], depth)
  }

  predicate EntriesFit(isUtf8: seq<byte> -> bool, entries: seq<Entry>, depth: nat)
    decreases entries
  {
    |entries| > 0 ==>
      var e := entries[0];
      assert e.value < e;
      KeyFits(isUtf8, e.key, depth) && Fits(isUtf8, e.value, depth) && EntriesFit(isUtf8, entries[1..], depth)
  }

  predicate KeyFits(isUtf8: seq<byte> -> bool, k: Key, depth: nat) {
    && depth <= 8
    && match k
       case Label(n) => -0x1_0000_0000 <= n < 0x1_0000_0000
       case Name(s) => |s| <= 8192 && isUtf8(s)
  }

  function NumBytes(n: int): seq<byte>
    requires -0x1_0000_0000 <= n < 0x1_0000_0000
  {
    if n >= 0 then HeadBytes(0, n) else HeadBytes(1, -1 - n)
  }

  function StringBytes(major: nat, s: seq<byte>): seq<byte>
    requires major < 8 && |s| <= 8192
  {
    HeadBytes(major, |s|) + s
  }

  function KeyBytes(isUtf8: seq<byte> -> bool, k: Key, depth: nat): seq<byte>
    requires KeyFits(isUtf8, k, depth)
  {
    match k
    case Label(n) => NumBytes(n)
    case Name(t) => StringBytes(3, t)
  }

  function Encode(isUtf8: seq<byte> -> bool, v: Value, depth: nat): seq<byte>
    requires Fits(isUtf8, v, depth)
    decreases v
  {
    match v
    case Num(n) => NumBytes(n)
    case Bytes(s) => StringBytes(2, s)
    case Text(s) => StringBytes(3, s)
    case List(items) => HeadBytes(4, |items|) + ItemsBytes(isUtf8, items, depth + 1)
    case Table(entries) => HeadBytes(5, |entries|) + EntriesBytes(isUtf8, entries, depth + 1)
    case Bool(b) => HeadBytes(7, if b then 21 else 20)
    case Null => HeadBytes(7, 22)
  }

  function ItemsBytes(isUtf8: seq<byte> -> bool, items: seq<Value>, depth: nat): seq<byte>
    requires ItemsFit(isUtf8, items, depth)
    decreases items
  {
    if |items| == 0 then [] else Encode(isUtf8, items[0], depth) + ItemsBytes(isUtf8, items[1..], depth)
  }

  function EntriesBytes(isUtf8: seq<byte> -> bool, entries: seq<Entry>, depth: nat): seq<byte>
    requires EntriesFit(isUtf8, entries, depth)
    decreases entries
  {
    if |entries| == 0 then [] else
    var e := entries[0];
    assert e.value < e;
    KeyBytes(isUtf8, e.key, depth) + Encode(isUtf8, e.value, depth) + EntriesBytes(isUtf8, entries[1..], depth)
  }

  // ----- Texts as the decoder returns them -----

  function CleanKey(k: Key): Key {
    match k
    case Label(n) => k
    case Name(t) => Name(StripBom(t))
  }

  function Clean(v: Value): Value
    decreases v
  {
    match v
    case Text(t) => Text(StripBom(t))
    case List(items) => List(CleanItems(items))
    case Table(entries) => Table(CleanEntries(entries))
    case _ => v
  }

  function CleanItems(items: seq<Value>): (r: seq<Value>)
    ensures |r| == |items|
    decreases items
  {
    if |items| == 0 then [] else [Clean(items[0])] + CleanItems(items[1..])
  }

  function CleanEntries(entries: seq<Entry>): (r: seq<Entry>)
    ensures |r| == |entries|
    decreases entries
  {
    if |entries| == 0 then [] else
    var e := entries[0];
    assert e.value < e;
    [Entry(CleanKey(e.key), Clean(e.value))] + CleanEntries(entries[1..])
  }

  /** No text, key or value, starts with a byte order mark. */
  predicate NoBom(v: Value)
    decreases v
  {
    match v
    case Text(t) => !(BOM <= t)
    case List(items) => NoBomItems(items)
    case Table(entries) => NoBomEntries(entries)
    case _ => true
  }

  predicate NoBomItems(items: seq<Value>)
    decreases items
  {
    |items| > 0 ==> NoBom(items[0]) && NoBomItems(items[1..])
  }

  predicate NoBomEntries(entries: seq<Entry>)
    decreases entries
  {
    |entries| > 0 ==>
      var e := entries[0];
      assert e.value < e;
      CleanKey(e.key) == e.key && NoBom(e.value) && NoBomEntries(entries[1..])
  }

  /** No map in the value repeats a key. */
  predicate Distinct(v: Value)
    decreases v
  {
    match v
    case List(items) => DistinctItems(items)
    case Table(entries) => DistinctEntries(entries, [])
    case _ => true
  }

  predicate DistinctItems(items: seq<Value>)
    decreases items
  {
    |items| > 0 ==> Distinct(items[0]) && DistinctItems(items[1..])
  }

  predicate DistinctEntries(entries: seq<Entry>, seen: seq<Entry>)
    decreases entries
  {
    |entries| > 0 ==>
      var e := entries[0];
      assert e.value < e;
      !HasKey(seen, e.key) && Distinct(e.value) && DistinctEntries(entries[1..], seen + [e])
  }

  lemma {:induction false} CleanIsSame(v: Value)
    ensures Clean(v) == v <==> NoBom(v)
    decreases v
  {
    match v
    case List(items) => CleanItemsIsSame(items);
    case Table(entries) => CleanEntriesIsSame(entries);
    case _ =>
  }

  lemma {:induction false} CleanItemsIsSame(items: seq<Value>)
    ensures CleanItems(items) == items <==> NoBomItems(items)
    decreases items
  {
    if |items| > 0 {
      CleanIsSame(items[0]);
      CleanItemsIsSame(items[1..]);
      assert items == [items[0]] + items[1..];
      assert CleanItems(items)[0] == Clean(items[0]) && CleanItems(items)[1..] == CleanItems(items[1..]);
    }
  }

  lemma {:induction false} CleanEntriesIsSame(entries: seq<Entry>)
    ensures CleanEntries(entries) == entries <==> NoBomEntries(entries)
    decreases entries
  {
    if |entries| > 0 {
      assert entries[0].value < entries[0];
      CleanIsSame(entries[0].value);
      CleanEntriesIsSame(entries[1..]);
      var first := Entry(CleanKey(entries[0].key), Clean(entries[0].value));
      assert entries == [entries[0]] + entries[1..];
      assert CleanEntries(entries)[0] == first && CleanEntries(entries)[1..] == CleanEntries(entries[1..]);
    }
  }

  // ----- Decoding what was encoded -----

  lemma HeadDecodes(bytes: seq<byte>, at: nat, major: nat, arg: nat)
    requires major < 8 && arg < 0x1_0000_0000
    requires Holds(bytes, at, HeadBytes(major, arg))
    ensures HeadAt(bytes, at) == Done(Head(major, arg), at + |HeadBytes(major, arg)|)
  {
    var h := HeadBytes(major, arg);
    assert forall i :: 0 <= i < |h| ==> bytes[at..at + |h|][i] == h[i];
    assert bytes[at] == h[0];
    if arg >= 24 { assert bytes[at + 1] == h[1]; }
    if arg >= 0x100 { assert bytes[at + 2] == h[2]; }
    if arg >= 0x1_0000 {
      assert bytes[at + 3] == h[3] && bytes[at + 4] == h[4];
      FourBytes(arg);
    }
  }

  lemma FourBytes(n: nat)
    ensures n == 0x100_0000 * (n / 0x100_0000) + 0x1_0000 * Low(n / 0x1_0000) + 0x100 * Low(n / 0x100) + Low(n)
  {
    var a, b, c := n / 0x100, n / 0x1_0000, n / 0x100_0000;
    assert n == 0x100 * a + Low(n);
    assert a == 0x100 * b + Low(a);
    assert b == 0x100 * c + Low(b);
  }

  function Outcome<T>(ok: bool, value: T, next: nat): Read<T> {
    if ok then Done(value, next) else Refused(DuplicateKey)
  }

  /** Numbers, strings and simple values. */
  lemma LeafDecodes(isUtf8: seq<byte> -> bool, bytes: seq<byte>, at: nat, v: Value, depth: nat)
    requires !v.List? && !v.Table?
    requires Fits(isUtf8, v, depth) && Holds(bytes, at, Encode(isUtf8, v, depth))
    ensures ItemAt(isUtf8, bytes, at, depth) == Done(Clean(v), at + |Encode(isUtf8, v, depth)|)
  {
    hide HeadBytes, HeadAt;
    match v
    case Num(n) =>
      if n >= 0 { HeadDecodes(bytes, at, 0, n); } else { HeadDecodes(bytes, at, 1, -1 - n); }
    case Bytes(s) => StringDecodes(bytes, at, 2, s);
    case Text(s) => StringDecodes(bytes, at, 3, s);
    case Bool(b) => HeadDecodes(bytes, at, 7, if b then 21 else 20);
    case Null => HeadDecodes(bytes, at, 7, 22);
  }

  lemma StringDecodes(bytes: seq<byte>, at: nat, major: nat, s: seq<byte>)
    requires major < 8 && |s| <= 8192 && Holds(bytes, at, StringBytes(major, s))
    ensures HeadAt(bytes, at) == Done(Head(major, |s|), at + |HeadBytes(major, |s|)|)
    ensures Holds(bytes, at + |HeadBytes(major, |s|)|, s)
  {
    hide HeadBytes, HeadAt;
    HoldsParts(bytes, at, HeadBytes(major, |s|), s);
    HeadDecodes(bytes, at, major, |s|);
  }

  lemma KeyDecodes(isUtf8: seq<byte> -> bool, bytes: seq<byte>, at: nat, k: Key, depth: nat)
    requires KeyFits(isUtf8, k, depth) && Holds(bytes, at, KeyBytes(isUtf8, k, depth))
    ensures ItemAt(isUtf8, bytes, at, depth)
      == Done(KeyValue(CleanKey(k)), at + |KeyBytes(isUtf8, k, depth)|)
  {
    hide HeadBytes, HeadAt, ItemAt, Holds;
    LeafDecodes(isUtf8, bytes, at, KeyValue(k), depth);
  }

  lemma ListDecodes(isUtf8: seq<byte> -> bool, bytes: seq<byte>, at: nat, depth: nat, count: nat)
    requires depth <= 8 && count <= 64 && Holds(bytes, at, HeadBytes(4, count))
    ensures ItemAt(isUtf8, bytes, at, depth)
      == var r := ItemsAt(isUtf8, bytes, at + |HeadBytes(4, count)|, depth + 1, count, []);
         if r.Refused? then Refused(r.error) else Done(List(r.value), r.next)
  {
    hide HeadBytes, HeadAt, Holds;
    HeadDecodes(bytes, at, 4, count);
  }

  lemma TableDecodes(isUtf8: seq<byte> -> bool, bytes: seq<byte>, at: nat, depth: nat, count: nat)
    requires depth <= 8 && count <= 64 && Holds(bytes, at, HeadBytes(5, count))
    ensures ItemAt(isUtf8, bytes, at, depth)
      == var r := EntriesAt(isUtf8, bytes, at + |HeadBytes(5, count)|, depth + 1, count, []);
         if r.Refused? then Refused(r.error) else Done(Table(r.value), r.next)
  {
    hide HeadBytes, HeadAt, Holds;
    HeadDecodes(bytes, at, 5, count);
  }

  /** An encoded value at any place is read back with its byte order marks dropped, and refused
      exactly when that leaves a map with a repeated key. */
  lemma {:induction false} ItemDecodes(isUtf8: seq<byte> -> bool, bytes: seq<byte>, at: nat, v: Value, depth: nat)
    requires Fits(isUtf8, v, depth) && Holds(bytes, at, Encode(isUtf8, v, depth))
    ensures ItemAt(isUtf8, bytes, at, depth)
      == Outcome(Distinct(Clean(v)), Clean(v), at + |Encode(isUtf8, v, depth)|)
    decreases v
  {
    hide HeadBytes, HeadAt, Holds, ItemAt, ItemsAt, EntriesAt, Encode, Fits, Distinct, Clean;
    if v.List? {
      ListParts(isUtf8, bytes, at, v, depth);
      ItemsDecode(isUtf8, bytes, at + |HeadBytes(4, |v.items|)|, v.items, depth + 1, []);
      ListOutcome(isUtf8, bytes, at, v, depth);
    } else if v.Table? {
      TableParts(isUtf8, bytes, at, v, depth);
      EntriesDecode(isUtf8, bytes, at + |HeadBytes(5, |v.entries|)|, v.entries, depth + 1, []);
      TableOutcome(isUtf8, bytes, at, v, depth);
    } else {
      LeafDecodes(isUtf8, bytes, at, v, depth);
      LeafDistinct(v);
    }
  }

  lemma LeafDistinct(v: Value)
    requires !v.List? && !v.Table?
    ensures Distinct(Clean(v))
  {
  }

  lemma ListParts(isUtf8: seq<byte> -> bool, bytes: seq<byte>, at: nat, v: Value, depth: nat)
    requires v.List? && Fits(isUtf8, v, depth) && Holds(bytes, at, Encode(isUtf8, v, depth))
    ensures depth <= 8 && |v.items| <= 64 && ItemsFit(isUtf8, v.items, depth + 1)
    ensures Holds(bytes, at, HeadBytes(4, |v.items|))
    ensures Holds(bytes, at + |HeadBytes(4, |v.items|)|, ItemsBytes(isUtf8, v.items, depth + 1))
    ensures |Encode(isUtf8, v, depth)| == |HeadBytes(4, |v.items|)| + |ItemsBytes(isUtf8, v.items, depth + 1)|
  {
    hide HeadBytes, Holds, ItemsFit, ItemsBytes;
    HoldsParts(bytes, at, HeadBytes(4, |v.items|), ItemsBytes(isUtf8, v.items, depth + 1));
  }

  lemma TableParts(isUtf8: seq<byte> -> bool, bytes: seq<byte>, at: nat, v: Value, depth: nat)
    requires v.Table? && Fits(isUtf8, v, depth) && Holds(bytes, at, Encode(isUtf8, v, depth))
    ensures depth <= 8 && |v.entries| <= 64 && EntriesFit(isUtf8, v.entries, depth + 1)
    ensures Holds(bytes, at, HeadBytes(5, |v.entries|))
    ensures Holds(bytes, at + |HeadBytes(5, |v.entries|)|, EntriesBytes(isUtf8, v.entries, depth + 1))
    ensures |Encode(isUtf8, v, depth)| == |HeadBytes(5, |v.entries|)| + |EntriesBytes(isUtf8, v.entries, depth + 1)|
  {
    hide HeadBytes, Holds, EntriesFit, EntriesBytes;
    HoldsParts(bytes, at, HeadBytes(5, |v.entries|), EntriesBytes(isUtf8, v.entries, depth + 1));
  }

  lemma ListOutcome(isUtf8: seq<byte> -> bool, bytes: seq<byte>, at: nat, v: Value, depth: nat)
    requires v.List? && depth <= 8 && |v.items| <= 64 && ItemsFit(isUtf8, v.items, depth + 1)
    requires Holds(bytes, at, HeadBytes(4, |v.items|))
    requires var start := at + |HeadBytes(4, |v.items|)|;
             ItemsAt(isUtf8, bytes, start, depth + 1, |v.items|, [])
               == Outcome(DistinctItems(CleanItems(v.items)), [] + CleanItems(v.items),
                          start + |ItemsBytes(isUtf8, v.items, depth + 1)|)
    ensures ItemAt(isUtf8, bytes, at, depth)
      == Outcome(Distinct(Clean(v)), Clean(v), at + |HeadBytes(4, |v.items|)| + |ItemsBytes(isUtf8, v.items, depth + 1)|)
  {
    hide HeadBytes, Holds, ItemAt, ItemsAt, CleanItems, DistinctItems, ItemsFit, ItemsBytes;
    ListDecodes(isUtf8, bytes, at, depth, |v.items|);
    assert [] + CleanItems(v.items) == CleanItems(v.items);
  }

  lemma TableOutcome(isUtf8: seq<byte> -> bool, bytes: seq<byte>, at: nat, v: Value, depth: nat)
    requires v.Table? && depth <= 8 && |v.entries| <= 64 && EntriesFit(isUtf8, v.entries, depth + 1)
    requires Holds(bytes, at, HeadBytes(5, |v.entries|))
    requires var start := at + |HeadBytes(5, |v.entries|)|;
             EntriesAt(isUtf8, bytes, start, depth + 1, |v.entries|, [])
               == Outcome(DistinctEntries(CleanEntries(v.entries), []), [] + CleanEntries(v.entries),
                          start + |EntriesBytes(isUtf8, v.entries, depth + 1)|)
    ensures ItemAt(isUtf8, bytes, at, depth)
      == Outcome(Distinct(Clean(v)), Clean(v), at + |HeadBytes(5, |v.entries|)| + |EntriesBytes(isUtf8, v.entries, depth + 1)|)
  {
    hide HeadBytes, Holds, ItemAt, EntriesAt, CleanEntries, DistinctEntries, EntriesFit, EntriesBytes;
    TableDecodes(isUtf8, bytes, at, depth, |v.entries|);
    assert [] + CleanEntries(v.entries) == CleanEntries(v.entries);
  }

  lemma {:induction false} ItemsDecode(isUtf8: seq<byte> -> bool, bytes: seq<byte>, at: nat, items: seq<Value>, depth: nat, out: seq<Value>)
    requires ItemsFit(isUtf8, items, depth) && Holds(bytes, at, ItemsBytes(isUtf8, items, depth))
    ensures ItemsAt(isUtf8, bytes, at, depth, |items|, out)
      == Outcome(DistinctItems(CleanItems(items)), out + CleanItems(items), at + |ItemsBytes(isUtf8, items, depth)|)
    decreases items
  {
    hide HeadBytes, HeadAt, Holds, ItemAt, EntriesAt, Fits, Encode, Clean, Distinct;
    var clean := CleanItems(items);
    if |items| > 0 {
      var first, rest := Encode(isUtf8, items[0], depth), ItemsBytes(isUtf8, items[1..], depth);
      HoldsParts(bytes, at, first, rest);
      ItemDecodes(isUtf8, bytes, at, items[0], depth);
      ItemsDecode(isUtf8, bytes, at + |first|, items[1..], depth, out + [Clean(items[0])]);
      assert clean[0] == Clean(items[0]) && clean[1..] == CleanItems(items[1..]);
      assert out + clean == out + [clean[0]] + clean[1..];
    } else {
      assert out + clean == out;
    }
  }

  lemma {:induction false} EntriesDecode(isUtf8: seq<byte> -> bool, bytes: seq<byte>, at: nat, entries: seq<Entry>, depth: nat, out: seq<Entry>)
    requires EntriesFit(isUtf8, entries, depth) && Holds(bytes, at, EntriesBytes(isUtf8, entries, depth))
    ensures EntriesAt(isUtf8, bytes, at, depth, |entries|, out)
      == Outcome(DistinctEntries(CleanEntries(entries), out), out + CleanEntries(entries),
                 at + |EntriesBytes(isUtf8, entries, depth)|)
    decreases entries
  {
    hide HeadBytes, HeadAt, Holds, ItemAt, ItemsAt, Fits, Encode, Clean, Distinct, KeyFits, KeyBytes, HasKey;
    var clean := CleanEntries(entries);
    if |entries| > 0 {
      var e := entries[0];
      assert e.value < e;
      var key, value := KeyBytes(isUtf8, e.key, depth), Encode(isUtf8, e.value, depth);
      var rest := EntriesBytes(isUtf8, entries[1..], depth);
      HoldsParts(bytes, at, key + value, rest);
      HoldsParts(bytes, at, key, value);
      KeyDecodes(isUtf8, bytes, at, e.key, depth);
      ItemDecodes(isUtf8, bytes, at + |key|, e.value, depth);
      var c := Entry(CleanKey(e.key), Clean(e.value));
      EntriesDecode(isUtf8, bytes, at + |key| + |value|, entries[1..], depth, out + [c]);
      assert clean[0] == c && clean[1..] == CleanEntries(entries[1..]);
      assert out + clean == out + [c] + clean[1..];
    } else {
      assert out + clean == out;
    }
  }

  /** Decoding an encoding gives the value back exactly when no map repeats a key and no text
      starts with a byte order mark. */
  lemma DecodeEncode(isUtf8: seq<byte> -> bool, v: Value)
    requires Fits(isUtf8, v, 0)
    ensures Decode(isUtf8, Encode(isUtf8, v, 0)) == Decoded.Value(v) <==> Distinct(v) && NoBom(v)
    ensures Decode(isUtf8, Encode(isUtf8, v, 0))
      == if Distinct(Clean(v)) then Decoded.Value(Clean(v)) else Decoded.Error(DuplicateKey)
  {
    hide Encode, ItemAt, Clean, NoBom, Fits, Distinct;
    var bytes := Encode(isUtf8, v, 0);
    assert bytes[0..0 + |bytes|] == bytes;
    ItemDecodes(isUtf8, bytes, 0, v, 0);
    CleanIsSame(v);
  }

  // ----- Values that do not come back -----

  /** A text that is a byte order mark comes back empty. */
  lemma MarkedText(isUtf8: seq<byte> -> bool)
    requires isUtf8(BOM)
    ensures Fits(isUtf8, Text(BOM), 0) && Encode(isUtf8, Text(BOM), 0) == [0x63, 0xEF, 0xBB, 0xBF]
    ensures Decode(isUtf8, [0x63, 0xEF, 0xBB, 0xBF]) == Decoded.Value(Text([]))
  {
    assert Encode(isUtf8, Text(BOM), 0) == [0x63, 0xEF, 0xBB, 0xBF];
    DecodeEncode(isUtf8, Text(BOM));
    assert StripBom(BOM) == [];
  }

  function CollidingMap(): Value {
    Table([Entry(Name([]), Null), Entry(Name(BOM), Null)])
  }

  /** Two keys that differ only by a mark are distinct, and are refused as repeated. */
  lemma CollidingKeys(isUtf8: seq<byte> -> bool)
    requires isUtf8([]) && isUtf8(BOM)
    ensures Fits(isUtf8, CollidingMap(), 0) && Distinct(CollidingMap())
    ensures Decode(isUtf8, Encode(isUtf8, CollidingMap(), 0)) == Decoded.Error(DuplicateKey)
  {
    hide Decode, Encode;
    var first, second := Entry(Name([]), Null), Entry(Name(BOM), Null);
    var entries := [first, second];
    assert entries[1..] == [second] && |entries[1..][1..]| == 0;
    assert [] + [first] == [first];
    DecodeEncode(isUtf8, CollidingMap());
    CollidingCleaned();
  }

  lemma CollidingCleaned()
    ensures !Distinct(Clean(CollidingMap()))
  {
    var first, second := Entry(Name([]), Null), Entry(Name(BOM), Null);
    var entries := [first, second];
    assert entries[1..] == [second] && |entries[1..][1..]| == 0;
    assert StripBom(BOM) == [];
    assert CleanEntries([second]) == [first];
    assert CleanEntries(entries) == [first, first];
    var clean := [first, first];
    assert clean[1..] == [first] && [] + [first] == [first];
    assert HasKey([first], first.key);
  }
}
