/** RESP2: commands as they are written and replies as they are read from a growing buffer. */
module Resp {
  import opened Options
  import opened Buffers

  const CRLF: seq<byte> := [13, 10]

  // The first byte of a reply.
  const STATUS: byte := 0x2B
  const ERROR: byte := 0x2D
  const INTEGER: byte := 0x3A
  const BULK: byte := 0x24
  const ARRAY: byte := 0x2A

  /** Strings are their bytes; an integer is kept as its digits. */
  datatype Reply = Str(bytes: seq<byte>) | Int(digits: seq<byte>) | Nil | Arr(items: seq<Reply>)

  datatype Problem = Reported(message: seq<byte>) | Unrecognised(kind: byte)

  /** What a caller is answered. */
  datatype Answer = Value(reply: Reply) | Failure(problem: Problem)

  /** `Malformed` stands for a length that is neither a natural number nor -1. */
  datatype Parse = Incomplete | Malformed | Parsed(answer: Answer, next: nat)

  // ----- Decimal numbers -----

  function Digits(n: nat): (s: seq<byte>)
    ensures |s| > 0
  {
    var last: byte := 0x30 + n % 10;
    if n < 10 then [last] else Digits(n / 10) + [last]
  }

  predicate IsDigits(s: seq<byte>) {
    forall i :: 0 <= i < |s| ==> 0x30 <= s[i] <= 0x39
  }

  function Decimal(s: seq<byte>): nat
    requires IsDigits(s)
  {
    if |s| == 0 then 0 else 10 * Decimal(s[..|s| - 1]) + (s[|s| - 1] as int - 0x30)
  }

  const MINUS_ONE: seq<byte> := [0x2D, 0x31]

  function Length(body: seq<byte>): (r: Option<int>)
    ensures r.Some? ==> r.value >= -1
  {
    if body == MINUS_ONE then Option<int>.Some(-1)
    else if IsDigits(body) then Some(Decimal(body))
    else None
  }

  lemma {:induction false} DecimalDigits(n: nat)
    ensures IsDigits(Digits(n)) && Decimal(Digits(n)) == n
  {
    if n >= 10 {
      DecimalDigits(n / 10);
      assert Digits(n)[..|Digits(n)| - 1] == Digits(n / 10);
    }
  }

  // ----- Commands -----

  function EncodeParts(parts: seq<seq<byte>>): seq<byte> {
    if |parts| == 0 then []
    else EncodeParts(parts[..|parts| - 1]) + EncodePart(parts[|parts| - 1])
  }

  function EncodePart(p: seq<byte>): seq<byte> {
    [BULK] + Digits(|p|) + CRLF + p + CRLF
  }

  function Encode(parts: seq<seq<byte>>): seq<byte> {
    [ARRAY] + Digits(|parts|) + CRLF + EncodeParts(parts)
  }

  method EncodeCommand(parts: seq<seq<byte>>) returns (out: seq<byte>)
    ensures out == Encode(parts)
  {
    out := [ARRAY] + Digits(|parts|) + CRLF;
    for i := 0 to |parts|
      invariant out == [ARRAY] + Digits(|parts|) + CRLF + EncodeParts(parts[..i])
    {
      assert parts[..i + 1][..i] == parts[..i];
      out := out + EncodePart(parts[i]);
    }
    assert parts[..|parts|] == parts;
  }

  // ----- Replies -----

  /** An error inside an array becomes a null. */
  function ItemOf(a: Answer): Reply {
    if a.Value? then a.reply else Nil
  }

  datatype Line = Line(body: seq<byte>, after: nat)

  /** What stands between a reply's first byte and the next CRLF, and where that ends. */
  function LineAt(buffer: seq<byte>, at: nat): (r: Option<Line>)
    requires at <= |buffer|
    ensures r.Some? ==> at + 2 <= r.value.after <= |buffer|
  {
    var end := IndexOf(buffer, CRLF, at);
    if at == |buffer| || end.None? then None
    else Some(Line(if at + 1 <= end.value then buffer[at + 1..end.value] else [], end.value + 2))
  }

  /** A string of a stated length, which may hold anything. */
  function BulkAt(buffer: seq<byte>, after: nat, length: Option<int>): (r: Parse)
    requires after <= |buffer| && (length.Some? ==> length.value >= -1)
    ensures r.Parsed? ==> after <= r.next <= |buffer|
  {
    if length.None? then Malformed
    else if length.value == -1 then Parsed(Value(Nil), after)
    else if |buffer| < after + length.value + 2 then Incomplete
    else Parsed(Value(Str(buffer[after..after + length.value])), after + length.value + 2)
  }

  /** One reply at a place, when the buffer holds a whole one. */
  function ParseAt(buffer: seq<byte>, at: nat): (r: Parse)
    requires at <= |buffer|
    ensures r.Parsed? ==> at + 2 <= r.next <= |buffer|
    decreases |buffer| - at, 0, 0
  {
    var line := LineAt(buffer, at);
    if line.None? then Incomplete else
    var kind, body, after := buffer[at], line.value.body, line.value.after;
    if kind == STATUS then Parsed(Value(Str(body)), after)
    else if kind == ERROR then Parsed(Failure(Reported(body)), after)
    else if kind == INTEGER then Parsed(Value(Int(body)), after)
    else if kind == BULK then BulkAt(buffer, after, Length(body))
    else if kind == ARRAY then ParseArray(buffer, after, Length(body))
    else Parsed(Failure(Unrecognised(kind)), after)
  }

  function ParseArray(buffer: seq<byte>, after: nat, count: Option<int>): (r: Parse)
    requires after <= |buffer| && (count.Some? ==> count.value >= -1)
    ensures r.Parsed? ==> after <= r.next <= |buffer|
    decreases |buffer| - after, 2, 0
  {
    if count.None? then Malformed
    else if count.value == -1 then Parsed(Value(Nil), after)
    else ParseItems(buffer, after, count.value, [])
  }

  /** `count` more items of an array, after those already read. */
  function ParseItems(buffer: seq<byte>, cursor: nat, count: nat, items: seq<Reply>): (r: Parse)
    requires cursor <= |buffer|
    ensures r.Parsed? ==> cursor <= r.next <= |buffer|
    decreases |buffer| - cursor, 1, count
  {
    if count == 0 then Parsed(Value(Arr(items)), cursor) else
    var item := ParseAt(buffer, cursor);
    if !item.Parsed? then item
    else ParseItems(buffer, item.next, count - 1, items + [ItemOf(item.answer)])
  }

  method ParseReply(buffer: seq<byte>, at: nat) returns (r: Parse)
    requires at <= |buffer|
    ensures r == ParseAt(buffer, at)
    decreases |buffer| - at, 0
  {
    hide Length, IndexOf;
    if at >= |buffer| { return Incomplete; }
    var end := IndexOf(buffer, CRLF, at);
    if end.None? { return Incomplete; }
    var body := if at + 1 <= end.value then buffer[at + 1..end.value] else [];
    var after := end.value + 2;
    assert LineAt(buffer, at) == Some(Line(body, after));
    var kind := buffer[at];
    if kind == STATUS { return Parsed(Value(Str(body)), after); }
    if kind == ERROR { return Parsed(Failure(Reported(body)), after); }
    if kind == INTEGER { return Parsed(Value(Int(body)), after); }
    if kind == BULK {
      r := BulkAt(buffer, after, Length(body));
      return;
    }
    if kind == ARRAY {
      r := ReadArray(buffer, after, Length(body));
      return;
    }
    return Parsed(Failure(Unrecognised(kind)), after);
  }

  method ReadArray(buffer: seq<byte>, after: nat, count: Option<int>) returns (r: Parse)
    requires after <= |buffer| && (count.Some? ==> count.value >= -1)
    ensures r == ParseArray(buffer, after, count)
    decreases |buffer| - after, 1
  {
    if count.None? { return Malformed; }
    if count.value == -1 { return Parsed(Value(Nil), after); }
    var items, cursor := [], after;
    for i := 0 to count.value
      invariant after <= cursor <= |buffer|
      invariant ParseItems(buffer, after, count.value, []) == ParseItems(buffer, cursor, count.value - i, items)
    {
      hide ParseAt, ParseItems;
      ItemsStep(buffer, cursor, count.value - i, items);
      var item := ParseReply(buffer, cursor);
      if !item.Parsed? { return item; }
      items := items + [ItemOf(item.answer)];
      cursor := item.next;
    }
    return Parsed(Value(Arr(items)), cursor);
  }

  lemma ItemsStep(buffer: seq<byte>, cursor: nat, count: nat, items: seq<Reply>)
    requires cursor <= |buffer| && count > 0
    ensures var item := ParseAt(buffer, cursor);
      ParseItems(buffer, cursor, count, items) ==
        if !item.Parsed? then item else ParseItems(buffer, item.next, count - 1, items + [ItemOf(item.answer)])
  {
    hide ParseAt;
  }

  // ----- Stability: an answer never changes when more bytes arrive -----

  lemma HoldsLonger(a: seq<byte>, more: seq<byte>, at: nat, part: seq<byte>)
    requires at + |part| <= |a|
    ensures Holds(a + more, at, part) == Holds(a, at, part)
  {
    assert (a + more)[at..at + |part|] == a[at..at + |part|];
  }

  lemma IndexOfStable(a: seq<byte>, more: seq<byte>, pattern: seq<byte>, from: nat)
    requires IndexOf(a, pattern, from).Some?
    ensures IndexOf(a + more, pattern, from) == IndexOf(a, pattern, from)
  {
    var at := IndexOf(a, pattern, from).value;
    forall i | from <= i <= at ensures Holds(a + more, i, pattern) == Holds(a, i, pattern) {
      HoldsLonger(a, more, i, pattern);
    }
    IndexOfIs(a + more, pattern, from, at);
  }

  lemma LineStable(a: seq<byte>, more: seq<byte>, at: nat)
    requires at <= |a| && LineAt(a, at).Some?
    ensures LineAt(a + more, at) == LineAt(a, at)
  {
    hide IndexOf;
    IndexOfStable(a, more, CRLF, at);
    var end := IndexOf(a, CRLF, at).value;
    if at + 1 <= end { assert (a + more)[at + 1..end] == a[at + 1..end]; }
  }

  lemma BulkStable(a: seq<byte>, more: seq<byte>, after: nat, length: Option<int>)
    requires after <= |a| && (length.Some? ==> length.value >= -1)
    requires !BulkAt(a, after, length).Incomplete?
    ensures BulkAt(a + more, after, length) == BulkAt(a, after, length)
  {
    if length.Some? && length.value >= 0 {
      assert (a + more)[after..after + length.value] == a[after..after + length.value];
    }
  }

  lemma {:induction false} ParseStable(a: seq<byte>, more: seq<byte>, at: nat)
    requires at <= |a| && !ParseAt(a, at).Incomplete?
    ensures ParseAt(a + more, at) == ParseAt(a, at)
    decreases |a| - at, 0, 0
  {
    hide LineAt, Length, BulkAt;
    LineStable(a, more, at);
    assert at < |a|;
    var body, after := LineAt(a, at).value.body, LineAt(a, at).value.after;
    var n := Length(body);
    if a[at] == BULK {
      BulkStable(a, more, after, n);
    } else if a[at] == ARRAY && n.Some? && n.value >= 0 {
      ParseItemsStable(a, more, after, n.value, []);
    }
  }

  lemma {:induction false} ParseItemsStable(a: seq<byte>, more: seq<byte>, cursor: nat, count: nat, items: seq<Reply>)
    requires cursor <= |a| && !ParseItems(a, cursor, count, items).Incomplete?
    ensures ParseItems(a + more, cursor, count, items) == ParseItems(a, cursor, count, items)
    decreases |a| - cursor, 1, count
  {
    hide ParseAt;
    if count > 0 {
      var item := ParseAt(a, cursor);
      ParseStable(a, more, cursor);
      if item.Parsed? {
        ParseItemsStable(a, more, item.next, count - 1, items + [ItemOf(item.answer)]);
      }
    }
  }
}
