/** The CBOR subset authenticators send (RFC 8949 section 3): definite lengths only, no tags,
    no floats, integer or text map keys, and bounds on depth, entries and string lengths. */
module Cbor {
  import opened Options
  import opened Buffers

  const MAX_DEPTH: nat := 8
  const MAX_ENTRIES: nat := 64
  const MAX_BYTES: nat := 8192

  /** A text is kept as its UTF-8 bytes, which strict decoding determines and is determined by. */
  datatype Key = Label(n: int) | Name(text: seq<byte>)

  datatype Entry = Entry(key: Key, value: Value)

  /** A map is its entries in insertion order. */
  datatype Value =
    | Num(n: int)
    | Bytes(bytes: seq<byte>)
    | Text(text: seq<byte>)
    | List(items: seq<Value>)
    | Table(entries: seq<Entry>)
    | Bool(b: bool)
    | Null

  datatype Error =
    | RanOff
    | TooDeep
    | BadArgument
    | TooLong
    | TooMany
    | NotUtf8
    | BadKey
    | DuplicateKey
    | BadSimple
    | BadMajor
    | Trailing

  datatype Read<+T> = Done(value: T, next: nat) | Refused(error: Error)

  datatype Head = Head(major: nat, arg: nat)

  /** The first byte's top three bits are the major type and the rest the argument, or the
      number of big-endian bytes that hold it. */
  function HeadAt(bytes: seq<byte>, at: nat): (r: Read<Head>)
    ensures r.Done? ==> at < r.next <= |bytes| && r.value.major < 8 && r.value.arg < 0x1_0000_0000
  {
    if at + 1 > |bytes| then Refused(RanOff) else
    var major := bytes[at] as int / 32;
    var additional := bytes[at] as int % 32;
    if additional < 24 then Done(Head(major, additional), at + 1)
    else if additional == 24 then
      if at + 2 > |bytes| then Refused(RanOff) else Done(Head(major, bytes[at + 1]), at + 2)
    else if additional == 25 then
      if at + 3 > |bytes| then Refused(RanOff) else Done(Head(major, Big16(bytes, at + 1)), at + 3)
    else if additional == 26 then
      if at + 5 > |bytes| then Refused(RanOff) else Done(Head(major, Big32(bytes, at + 1)), at + 5)
    else Refused(BadArgument)
  }

  function Big16(s: seq<byte>, at: nat): (value: nat)
    requires at + 2 <= |s|
    ensures value < 0x1_0000
  {
    0x100 * s[at] as int + s[at + 1] as int
  }

  function Big32(s: seq<byte>, at: nat): (value: nat)
    requires at + 4 <= |s|
    ensures value < 0x1_0000_0000
  {
    0x1_0000 * Big16(s, at) + Big16(s, at + 2)
  }

  const BOM: seq<byte> := [0xEF, 0xBB, 0xBF]

  /** The text decoder drops one leading byte order mark. */
  function StripBom(text: seq<byte>): (r: seq<byte>)
    ensures |r| <= |text|
    ensures r == text <==> !(BOM <= text)
  {
    if BOM <= text then text[3..] else text
  }

  function KeyOf(v: Value): Option<Key> {
    match v
    case Num(n) => Some(Label(n))
    case Text(t) => Some(Name(t))
    case _ => None
  }

  predicate HasKey(entries: seq<Entry>, key: Key) {
    exists e :: e in entries && e.key == key
  }

  /** What reading one item at a position gives, and where it stops. */
  function ItemAt(isUtf8: seq<byte> -> bool, bytes: seq<byte>, at: nat, depth: nat): (r: Read<Value>)
    ensures r.Done? ==> at < r.next <= |bytes|
    decreases if depth > MAX_DEPTH then 0 else MAX_DEPTH + 1 - depth, 0
  {
    if depth > MAX_DEPTH then Refused(TooDeep) else
    var h := HeadAt(bytes, at);
    if h.Refused? then Refused(h.error) else
    var arg, start := h.value.arg, h.next;
    match h.value.major
    case 0 => Done(Num(arg), start)
    case 1 => Done(Num(-1 - arg), start)
    case 2 =>
      if arg > MAX_BYTES then Refused(TooLong)
      else if start + arg > |bytes| then Refused(RanOff)
      else Done(Bytes(bytes[start..start + arg]), start + arg)
    case 3 =>
      if arg > MAX_BYTES then Refused(TooLong)
      else if start + arg > |bytes| then Refused(RanOff)
      else if !isUtf8(bytes[start..start + arg]) then Refused(NotUtf8)
      else Done(Text(StripBom(bytes[start..start + arg])), start + arg)
    case 4 =>
      if arg > MAX_ENTRIES then Refused(TooMany) else
      var r := ItemsAt(isUtf8, bytes, start, depth + 1, arg, []);
      if r.Refused? then Refused(r.error) else Done(List(r.value), r.next)
    case 5 =>
      if arg > MAX_ENTRIES then Refused(TooMany) else
      var r := EntriesAt(isUtf8, bytes, start, depth + 1, arg, []);
      if r.Refused? then Refused(r.error) else Done(Table(r.value), r.next)
    case 7 =>
      if arg == 20 then Done(Bool(false), start)
      else if arg == 21 then Done(Bool(true), start)
      else if arg == 22 then Done(Null, start)
      else Refused(BadSimple)
    case _ => Refused(BadMajor)
  }

  /** `count` more items, after those already read. */
  function ItemsAt(isUtf8: seq<byte> -> bool, bytes: seq<byte>, at: nat, depth: nat, count: nat, out: seq<Value>): (r: Read<seq<Value>>)
    ensures r.Done? && at <= |bytes| ==> at <= r.next <= |bytes|
    decreases if depth > MAX_DEPTH then 0 else MAX_DEPTH + 1 - depth, count
  {
    if count == 0 then Done(out, at) else
    var v := ItemAt(isUtf8, bytes, at, depth);
    if v.Refused? then Refused(v.error)
    else ItemsAt(isUtf8, bytes, v.next, depth, count - 1, out + [v.value])
  }

  /** `count` more entries, after those already read; a repeated key is refused. */
  function EntriesAt(isUtf8: seq<byte> -> bool, bytes: seq<byte>, at: nat, depth: nat, count: nat, out: seq<Entry>): (r: Read<seq<Entry>>)
    ensures r.Done? && at <= |bytes| ==> at <= r.next <= |bytes|
    decreases if depth > MAX_DEPTH then 0 else MAX_DEPTH + 1 - depth, count
  {
    if count == 0 then Done(out, at) else
    var k := ItemAt(isUtf8, bytes, at, depth);
    if k.Refused? then Refused(k.error) else
    var key := KeyOf(k.value);
    if key.None? then Refused(BadKey)
    else if HasKey(out, key.value) then Refused(DuplicateKey) else
    var v := ItemAt(isUtf8, bytes, k.next, depth);
    if v.Refused? then Refused(v.error)
    else EntriesAt(isUtf8, bytes, v.next, depth, count - 1, out + [Entry(key.value, v.value)])
  }

  datatype Decoded = Value(value: Value) | Error(error: Error)

  /** One item and nothing after it. */
  function Decode(isUtf8: seq<byte> -> bool, bytes: seq<byte>): Decoded {
    var r := ItemAt(isUtf8, bytes, 0, 0);
    if r.Refused? then Decoded.Error(r.error)
    else if r.next != |bytes| then Decoded.Error(Trailing)
    else Decoded.Value(r.value)
  }

  // ----- The cursor over the bytes -----

  class Reader {
    const bytes: seq<byte>
    const isUtf8: seq<byte> -> bool
    var offset: nat

    constructor (isUtf8: seq<byte> -> bool, bytes: seq<byte>, offset: nat)
      ensures this.bytes == bytes && this.isUtf8 == isUtf8 && this.offset == offset
    {
      this.bytes := bytes;
      this.isUtf8 := isUtf8;
      this.offset := offset;
    }

    /** Whether n more bytes are there. */
    predicate Has(n: nat)
      reads this
    {
      offset + n <= |bytes|
    }

    method ReadHead() returns (r: Read<Head>)
      modifies this
      ensures r == HeadAt(bytes, old(offset))
      ensures r.Done? ==> offset == r.next
    {
      if !Has(1) { return Refused(RanOff); }
      var initial := bytes[offset];
      offset := offset + 1;
      var major, additional := initial as int / 32, initial as int % 32;
      if additional < 24 { return Done(Head(major, additional), offset); }
      if additional == 24 {
        if !Has(1) { return Refused(RanOff); }
        var arg := bytes[offset];
        offset := offset + 1;
        return Done(Head(major, arg), offset);
      }
      if additional == 25 {
        if !Has(2) { return Refused(RanOff); }
        var arg := 0x100 * bytes[offset] as int + bytes[offset + 1] as int;
        offset := offset + 2;
        return Done(Head(major, arg), offset);
      }
      if additional == 26 {
        if !Has(4) { return Refused(RanOff); }
        var arg := Big32(bytes, offset);
        offset := offset + 4;
        return Done(Head(major, arg), offset);
      }
      return Refused(BadArgument);
    }

    /** A string's bytes: refused over the limit and at the end of the input, never cut short. */
    method ReadString(arg: nat) returns (r: Read<seq<byte>>)
      modifies this
      ensures r == if arg > MAX_BYTES then Refused(TooLong)
                   else if old(offset) + arg > |bytes| then Refused(RanOff)
                   else Done(bytes[old(offset)..old(offset) + arg], old(offset) + arg)
      ensures r.Done? ==> offset == r.next
    {
      if arg > MAX_BYTES { return Refused(TooLong); }
      if !Has(arg) { return Refused(RanOff); }
      var out := bytes[offset..offset + arg];
      offset := offset + arg;
      return Done(out, offset);
    }

    method ReadItem(depth: nat) returns (r: Read<Value>)
      modifies this
      ensures r == ItemAt(isUtf8, bytes, old(offset), depth)
      ensures r.Done? ==> offset == r.next
      decreases if depth > MAX_DEPTH then 0 else MAX_DEPTH + 1 - depth, 0
    {
      if depth > MAX_DEPTH { return Refused(TooDeep); }
      var h := ReadHead();
      if h.Refused? { return Refused(h.error); }
      var arg := h.value.arg;
      match h.value.major {
        case 0 => return Done(Num(arg), offset);
        case 1 => return Done(Num(-1 - arg), offset);
        case 2 =>
          var s := ReadString(arg);
          if s.Refused? { return Refused(s.error); }
          return Done(Bytes(s.value), offset);
        case 3 =>
          var s := ReadString(arg);
          if s.Refused? { return Refused(s.error); }
          if !isUtf8(s.value) { return Refused(NotUtf8); }
          return Done(Text(StripBom(s.value)), offset);
        case 4 =>
          if arg > MAX_ENTRIES { return Refused(TooMany); }
          var s := ReadItems(depth + 1, arg);
          if s.Refused? { return Refused(s.error); }
          return Done(List(s.value), offset);
        case 5 =>
          if arg > MAX_ENTRIES { return Refused(TooMany); }
          var s := ReadEntries(depth + 1, arg);
          if s.Refused? { return Refused(s.error); }
          return Done(Table(s.value), offset);
        case 7 =>
          if arg == 20 { return Done(Bool(false), offset); }
          if arg == 21 { return Done(Bool(true), offset); }
          if arg == 22 { return Done(Null, offset); }
          return Refused(BadSimple);
        case _ => return Refused(BadMajor);
      }
    }

    method ReadItems(depth: nat, count: nat) returns (r: Read<seq<Value>>)
      modifies this
      ensures r == ItemsAt(isUtf8, bytes, old(offset), depth, count, [])
      ensures r.Done? ==> offset == r.next
      decreases if depth > MAX_DEPTH then 0 else MAX_DEPTH + 1 - depth, count + 1
    {
      var out: seq<Value> := [];
      for i := 0 to count
        invariant ItemsAt(isUtf8, bytes, old(offset), depth, count, [])
          == ItemsAt(isUtf8, bytes, offset, depth, count - i, out)
      {
        var v := ReadItem(depth);
        if v.Refused? { return Refused(v.error); }
        out := out + [v.value];
      }
      return Done(out, offset);
    }

    method ReadEntries(depth: nat, count: nat) returns (r: Read<seq<Entry>>)
      modifies this
      ensures r == EntriesAt(isUtf8, bytes, old(offset), depth, count, [])
      ensures r.Done? ==> offset == r.next
      decreases if depth > MAX_DEPTH then 0 else MAX_DEPTH + 1 - depth, count + 1
    {
      var out: seq<Entry> := [];
      for i := 0 to count
        invariant EntriesAt(isUtf8, bytes, old(offset), depth, count, [])
          == EntriesAt(isUtf8, bytes, offset, depth, count - i, out)
      {
        var k := ReadItem(depth);
        if k.Refused? { return Refused(k.error); }
        var key := KeyOf(k.value);
        if key.None? { return Refused(BadKey); }
        if HasKey(out, key.value) { return Refused(DuplicateKey); }
        var v := ReadItem(depth);
        if v.Refused? { return Refused(v.error); }
        out := out + [Entry(key.value, v.value)];
      }
      return Done(out, offset);
    }
  }

  method DecodeCbor(isUtf8: seq<byte> -> bool, bytes: seq<byte>) returns (r: Decoded)
    ensures r == Decode(isUtf8, bytes)
  {
    var reader := new Reader(isUtf8, bytes, 0);
    var item := reader.ReadItem(0);
    if item.Refused? { return Decoded.Error(item.error); }
    if reader.offset != |bytes| { return Decoded.Error(Trailing); }
    return Decoded.Value(item.value);
  }
}
