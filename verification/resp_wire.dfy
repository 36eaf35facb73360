/** Replies as a server prints them, and what the parser makes of a stream of them. */
module RespWire {
  import opened Options
  import opened Buffers
  import opened Resp

  datatype Wire =
    | Status(text: seq<byte>)
    | Error(text: seq<byte>)
    | Integer(digits: seq<byte>)
    | Bulk(bytes: seq<byte>)
    | NilBulk
    | Array(items: seq<Wire>)
    | NilArray
    | Other(kind: byte, text: seq<byte>)

  /** A line ends at its first CRLF, so it holds none; a bulk string may. */
  predicate OneLine(text: seq<byte>) {
    forall i :: 0 <= i < |text| - 1 ==> !(text[i] == 13 && text[i + 1] == 10)
  }

  predicate WellFormed(w: Wire)
    decreases w
  {
    match w
    case Status(t) => OneLine(t)
    case Error(t) => OneLine(t)
    case Integer(d) => OneLine(d)
    case Array(items) => AllWellFormed(items)
    case Other(kind, t) => kind != 13 && kind !in Ascii("+-:$*") && OneLine(t)
    case _ => true
  }

  predicate AllWellFormed(ws: seq<Wire>)
    decreases ws
  {
    |ws| > 0 ==> WellFormed(ws[0]) && AllWellFormed(ws[1..])
  }

  function LineBytes(kind: byte, body: seq<byte>): seq<byte> {
    [kind] + body + [13, 10]
  }

  function Print(w: Wire): (s: seq<byte>)
    ensures |s| >= 2
    decreases w
  {
    match w
    case Status(t) => LineBytes('+' as int, t)
    case Error(t) => LineBytes('-' as int, t)
    case Integer(d) => LineBytes(':' as int, d)
    case Bulk(b) => LineBytes('$' as int, Digits(|b|)) + (b + [13, 10])
    case NilBulk => LineBytes('$' as int, Ascii("-1"))
    case Array(items) => LineBytes('*' as int, Digits(|items|)) + PrintAll(items)
    case NilArray => LineBytes('*' as int, Ascii("-1"))
    case Other(kind, t) => LineBytes(kind, t)
  }

  lemma Bytes()
    ensures STATUS == '+' as int && ERROR == '-' as int && INTEGER == ':' as int && BULK == '$' as int && ARRAY == '*' as int
    ensures CRLF == [13, 10] && MINUS_ONE == Ascii("-1")
  {
  }

  function PrintAll(ws: seq<Wire>): seq<byte>
    decreases ws
  {
    if |ws| == 0 then [] else Print(ws[0]) + PrintAll(ws[1..])
  }

  /** What the client is to be answered; an error inside an array is a null there. */
  function Meaning(w: Wire): Answer
    decreases w
  {
    match w
    case Status(t) => Value(Str(t))
    case Error(t) => Failure(Reported(t))
    case Integer(d) => Value(Int(d))
    case Bulk(b) => Value(Str(b))
    case NilBulk => Value(Nil)
    case Array(items) => Value(Arr(Items(items)))
    case NilArray => Value(Nil)
    case Other(kind, _) => Failure(Unrecognised(kind))
  }

  function Items(ws: seq<Wire>): (r: seq<Reply>)
    ensures |r| == |ws|
    decreases ws
  {
    if |ws| == 0 then [] else [ItemOf(Meaning(ws[0]))] + Items(ws[1..])
  }

  // ----- Parsing what was printed -----

  lemma LineParts(buffer: seq<byte>, at: nat, kind: byte, body: seq<byte>)
    requires Holds(buffer, at, LineBytes(kind, body))
    ensures Holds(buffer, at, [kind]) && Holds(buffer, at + 1, body) && Holds(buffer, at + 1 + |body|, CRLF)
  {
    hide Holds;
    HoldsParts(buffer, at, [kind] + body, CRLF);
    HoldsParts(buffer, at, [kind], body);
  }

  /** The line's own CRLF is the first. */
  lemma NoneEarlier(buffer: seq<byte>, at: nat, kind: byte, body: seq<byte>, i: nat)
    requires kind != 13 && OneLine(body) && at <= i < at + 1 + |body| && at + 3 + |body| <= |buffer|
    requires buffer[at] == kind && buffer[at + 1..at + 1 + |body|] == body && buffer[at + 1 + |body|] == 13
    ensures !Holds(buffer, i, CRLF)
  {
    if i > at {
      assert buffer[i] == body[i - at - 1];
      if i < at + |body| { assert buffer[i + 1] == body[i - at]; }
    }
  }

  lemma LineReads(buffer: seq<byte>, at: nat, kind: byte, body: seq<byte>)
    requires kind != 13 && OneLine(body) && Holds(buffer, at, LineBytes(kind, body))
    ensures at < |buffer| && buffer[at] == kind
    ensures LineAt(buffer, at) == Some(Line(body, at + |body| + 3))
  {
    LineParts(buffer, at, kind, body);
    var end := at + 1 + |body|;
    assert buffer[at] == buffer[at..at + 1][0];
    assert buffer[end] == buffer[end..end + 2][0];
    forall i | at <= i < end ensures !Holds(buffer, i, CRLF) {
      NoneEarlier(buffer, at, kind, body, i);
    }
    IndexOfIs(buffer, CRLF, at, end);
  }

  lemma {:induction false} DigitsAreDigits(n: nat)
    ensures IsDigits(Digits(n)) && OneLine(Digits(n)) && Length(Digits(n)) == Some(n)
  {
    DecimalDigits(n);
    assert Digits(n)[0] != MINUS_ONE[0];
  }

  /** A well-formed reply at any place of a buffer is parsed to its meaning and to its last byte. */
  lemma {:induction false} ParsePrint(buffer: seq<byte>, at: nat, w: Wire)
    requires WellFormed(w) && Holds(buffer, at, Print(w))
    ensures ParseAt(buffer, at) == Parsed(Meaning(w), at + |Print(w)|)
    decreases w
  {
    hide LineAt, Holds, OneLine, LineBytes, Length, IsDigits;
    Bytes();
    match w
    case Status(t) => LineReads(buffer, at, STATUS, t); LineSize(STATUS, t);
    case Error(t) => LineReads(buffer, at, ERROR, t); LineSize(ERROR, t);
    case Integer(d) => LineReads(buffer, at, INTEGER, d); LineSize(INTEGER, d);
    case Bulk(b) => BulkReads(buffer, at, b);
    case NilBulk => NilReads(buffer, at, BULK);
    case Array(items) =>
      var size := Digits(|items|);
      DigitsAreDigits(|items|);
      HoldsParts(buffer, at, LineBytes(ARRAY, size), PrintAll(items));
      LineReads(buffer, at, ARRAY, size);
      LineSize(ARRAY, size);
      ParseAll(buffer, at + |size| + 3, items, []);
      assert [] + Items(items) == Items(items);
    case NilArray => NilReads(buffer, at, ARRAY);
    case Other(kind, t) => OtherReads(buffer, at, kind, t);
  }

  /** A line of an unknown kind is answered as such, and the next reply begins after it. */
  lemma OtherReads(buffer: seq<byte>, at: nat, kind: byte, t: seq<byte>)
    requires kind != 13 && kind !in Ascii("+-:$*") && OneLine(t) && Holds(buffer, at, LineBytes(kind, t))
    ensures ParseAt(buffer, at) == Parsed(Failure(Unrecognised(kind)), at + |LineBytes(kind, t)|)
  {
    hide LineAt, Holds, OneLine, LineBytes;
    assert STATUS == Ascii("+-:$*")[0] && ERROR == Ascii("+-:$*")[1] && INTEGER == Ascii("+-:$*")[2];
    assert BULK == Ascii("+-:$*")[3] && ARRAY == Ascii("+-:$*")[4];
    LineReads(buffer, at, kind, t);
    LineSize(kind, t);
  }

  lemma LineSize(kind: byte, body: seq<byte>)
    ensures |LineBytes(kind, body)| == |body| + 3
  {
  }

  lemma NilReads(buffer: seq<byte>, at: nat, kind: byte)
    requires kind == BULK || kind == ARRAY
    requires Holds(buffer, at, LineBytes(kind, MINUS_ONE))
    ensures ParseAt(buffer, at) == Parsed(Value(Nil), at + |LineBytes(kind, MINUS_ONE)|)
  {
    hide LineAt, Holds;
    LineReads(buffer, at, kind, MINUS_ONE);
  }

  lemma BulkReads(buffer: seq<byte>, at: nat, b: seq<byte>)
    requires Holds(buffer, at, LineBytes(BULK, Digits(|b|)) + (b + CRLF))
    ensures ParseAt(buffer, at) == Parsed(Value(Str(b)), at + |LineBytes(BULK, Digits(|b|)) + (b + CRLF)|)
  {
    hide LineAt, OneLine, Length, IsDigits, Digits;
    var size := Digits(|b|);
    DigitsAreDigits(|b|);
    HoldsParts(buffer, at, LineBytes(BULK, size), b + CRLF);
    LineReads(buffer, at, BULK, size);
    HoldsParts(buffer, at + |size| + 3, b, CRLF);
  }

  lemma {:induction false} ParseAll(buffer: seq<byte>, cursor: nat, ws: seq<Wire>, items: seq<Reply>)
    requires AllWellFormed(ws) && Holds(buffer, cursor, PrintAll(ws)) && cursor <= |buffer|
    ensures ParseItems(buffer, cursor, |ws|, items) == Parsed(Value(Arr(items + Items(ws))), cursor + |PrintAll(ws)|)
    decreases ws
  {
    hide ParseAt, Holds, Print, Meaning, WellFormed;
    if |ws| == 0 {
      assert items + Items(ws) == items;
    } else {
      var first := Print(ws[0]);
      HoldsParts(buffer, cursor, first, PrintAll(ws[1..]));
      HoldsBounds(buffer, cursor, first);
      ParsePrint(buffer, cursor, ws[0]);
      var item := ItemOf(Meaning(ws[0]));
      HoldsBounds(buffer, cursor + |first|, PrintAll(ws[1..]));
      ParseAll(buffer, cursor + |first|, ws[1..], items + [item]);
      assert items + Items(ws) == items + [item] + Items(ws[1..]);
    }
  }

  lemma HoldsBounds(s: seq<byte>, at: nat, part: seq<byte>)
    requires Holds(s, at, part)
    ensures at + |part| <= |s|
  {
  }

  // ----- Streams -----

  datatype Drained = Drained(answers: seq<Answer>, rest: seq<byte>)

  /** Every complete reply of a stream in order, and the bytes that are not one yet. */
  function Drain(b: seq<byte>): (d: Drained)
    ensures !ParseAt(d.rest, 0).Parsed?
    decreases |b|
  {
    var p := ParseAt(b, 0);
    if !p.Parsed? then Drained([], b) else
    var d := Drain(b[p.next..]);
    Drained([p.answer] + d.answers, d.rest)
  }

  /** Where a stream is cut makes no difference; a stream that stopped at a malformed length stays there. */
  lemma {:induction false} DrainChunks(a: seq<byte>, more: seq<byte>)
    ensures var d, e := Drain(a), Drain(Drain(a).rest + more);
            Drain(a + more) == Drained(d.answers + e.answers, e.rest)
    decreases |a|
  {
    hide ParseAt;
    var p := ParseAt(a, 0);
    if p.Parsed? {
      ParseStable(a, more, 0);
      assert (a + more)[p.next..] == a[p.next..] + more;
      DrainChunks(a[p.next..], more);
      var d, e := Drain(a[p.next..]), Drain(Drain(a[p.next..]).rest + more);
      assert [p.answer] + (d.answers + e.answers) == [p.answer] + d.answers + e.answers;
    } else {
      var e := Drain(a + more);
      assert [] + e.answers == e.answers;
    }
  }

  function Meanings(ws: seq<Wire>): (r: seq<Answer>)
    ensures |r| == |ws|
    decreases ws
  {
    if |ws| == 0 then [] else [Meaning(ws[0])] + Meanings(ws[1..])
  }

  /** A stream of well-formed replies, whole so far or cut short, drains to their meanings in order. */
  lemma {:induction false} DrainPrinted(ws: seq<Wire>, tail: seq<byte>)
    requires AllWellFormed(ws)
    ensures Drain(PrintAll(ws) + tail) == Drained(Meanings(ws) + Drain(tail).answers, Drain(tail).rest)
    decreases ws
  {
    hide ParseAt, Print, Meaning, WellFormed;
    var b := PrintAll(ws) + tail;
    if |ws| == 0 {
      assert b == tail;
      assert [] + Drain(tail).answers == Drain(tail).answers;
    } else {
      var first, rest := Print(ws[0]), PrintAll(ws[1..]) + tail;
      assert b == first + rest;
      assert b[0..|first|] == first;
      ParsePrint(b, 0, ws[0]);
      assert b[|first|..] == rest;
      DrainPrinted(ws[1..], tail);
      assert Meanings(ws) + Drain(tail).answers == [Meaning(ws[0])] + (Meanings(ws[1..]) + Drain(tail).answers);
    }
  }

  // ----- Commands are arrays of bulk strings -----

  function Bulks(parts: seq<seq<byte>>): (ws: seq<Wire>)
    ensures |ws| == |parts|
  {
    seq(|parts|, i requires 0 <= i < |parts| => Bulk(parts[i]))
  }

  function Strings(parts: seq<seq<byte>>): (rs: seq<Reply>)
    ensures |rs| == |parts|
  {
    seq(|parts|, i requires 0 <= i < |parts| => Str(parts[i]))
  }

  lemma {:induction false} PrintAppend(ws: seq<Wire>, w: Wire)
    ensures PrintAll(ws + [w]) == PrintAll(ws) + Print(w)
    decreases ws
  {
    if |ws| == 0 {
      assert PrintAll([w]) == Print(w) + PrintAll([w][1..]) == Print(w);
      assert ws + [w] == [w];
    } else {
      assert (ws + [w])[1..] == ws[1..] + [w];
      PrintAppend(ws[1..], w);
      assert Print(ws[0]) + (PrintAll(ws[1..]) + Print(w)) == PrintAll(ws) + Print(w);
    }
  }

  lemma {:induction false} EncodePartsPrints(parts: seq<seq<byte>>)
    ensures EncodeParts(parts) == PrintAll(Bulks(parts))
  {
    hide Print;
    if |parts| > 0 {
      var last := |parts| - 1;
      EncodePartsPrints(parts[..last]);
      assert Bulks(parts) == Bulks(parts[..last]) + [Bulk(parts[last])];
      PrintAppend(Bulks(parts[..last]), Bulk(parts[last]));
      PartPrints(parts[last]);
    }
  }

  lemma PartPrints(p: seq<byte>)
    ensures EncodePart(p) == Print(Bulk(p))
  {
    assert EncodePart(p) == LineBytes(BULK, Digits(|p|)) + (p + CRLF);
  }

  lemma {:induction false} BulksMean(parts: seq<seq<byte>>)
    ensures AllWellFormed(Bulks(parts)) && Items(Bulks(parts)) == Strings(parts)
  {
    if |parts| > 0 {
      assert Bulks(parts)[1..] == Bulks(parts[1..]);
      BulksMean(parts[1..]);
      assert Strings(parts) == [Str(parts[0])] + Strings(parts[1..]);
    }
  }

  /** The parser reads a written command back as its arguments, whatever bytes they hold, and leaves
      what follows untouched. */
  lemma ParseEncode(parts: seq<seq<byte>>, tail: seq<byte>)
    ensures ParseAt(Encode(parts) + tail, 0) == Parsed(Value(Arr(Strings(parts))), |Encode(parts)|)
  {
    hide ParseAt, Print, EncodeParts, Bulks, Strings, Digits;
    var w := Array(Bulks(parts));
    EncodePrints(parts);
    BulksMean(parts);
    assert (Encode(parts) + tail)[0..|Encode(parts)|] == Encode(parts);
    ParsePrint(Encode(parts) + tail, 0, w);
  }

  lemma EncodePrints(parts: seq<seq<byte>>)
    ensures Encode(parts) == Print(Array(Bulks(parts)))
  {
    hide EncodeParts, Bulks, Digits, PrintAll;
    EncodePartsPrints(parts);
  }

  // ----- By example -----

  lemma DigitsByExample()
    ensures Digits(2) == Ascii("2") && Digits(3) == Ascii("3") && Digits(10) == Ascii("10")
  {
    assert Digits(1) == Ascii("1");
  }

  /** A command of the two words GET and k, as the protocol writes it. */
  lemma CommandByExample()
    ensures Encode([Ascii("GET"), Ascii("k")]) == Ascii("*2\r\n") + Ascii("$3\r\nGET\r\n") + Ascii("$1\r\nk\r\n")
  {
    DigitsByExample();
    assert Digits(1) == Ascii("1");
    var parts: seq<seq<byte>> := [Ascii("GET"), Ascii("k")];
    var one: seq<seq<byte>> := [Ascii("GET")];
    assert parts[..1] == one && EncodeParts(one[..0]) == [];
    assert EncodeParts(one) == EncodePart(Ascii("GET"));
    assert EncodeParts(parts) == EncodePart(Ascii("GET")) + EncodePart(Ascii("k"));
    assert EncodePart(Ascii("GET")) == Ascii("$3\r\nGET\r\n");
    assert EncodePart(Ascii("k")) == Ascii("$1\r\nk\r\n");
    assert [ARRAY] + Digits(2) + CRLF == Ascii("*2\r\n");
  }
}
