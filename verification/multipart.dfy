/** `multipart/form-data` (section 5.1.1 of RFC 2046, section 4 of RFC 7578), parsed strictly. Header text is
    its bytes, with ASCII whitespace and case. */
module Multipart {
  import opened Options
  import opened Buffers

  const MAX_PARTS: nat := 16
  const MAX_PART_HEADER_BYTES: nat := 8192

  const CRLF: seq<byte> := [13, 10]
  const DOUBLE_CRLF: seq<byte> := [13, 10, 13, 10]
  const DASHES: seq<byte> := [45, 45]
  const QUOTE: seq<byte> := [34]
  const COLON: seq<byte> := [58]
  const SEMICOLON: seq<byte> := [59]
  const EQUALS: byte := 61

  datatype Part = Part(name: seq<byte>, filename: Option<seq<byte>>, contentType: Option<seq<byte>>, content: seq<byte>)

  datatype Error =
    | NoBoundary
    | NotCrlf
    | NoHeaders
    | HeadersTooLarge
    | NotTerminated
    | TransferEncoding
    | NoDisposition
    | NoName
    | TooManyParts
    | NoParts

  datatype Outcome<+T> = Ok(value: T) | Failed(error: Error)

  // ----- Text -----

  predicate IsSpace(b: byte) {
    9 <= b <= 13 || b == 32
  }

  function Fold(b: byte): byte {
    if 65 <= b <= 90 then b + 32 else b
  }

  function Folded(s: seq<byte>): (r: seq<byte>)
    ensures |r| == |s|
    ensures forall i :: 0 <= i < |s| ==> r[i] == Fold(s[i])
  {
    seq(|s|, i requires 0 <= i < |s| => Fold(s[i]))
  }

  function TrimLeft(s: seq<byte>): seq<byte> {
    if |s| > 0 && IsSpace(s[0]) then TrimLeft(s[1..]) else s
  }

  function TrimRight(s: seq<byte>): seq<byte> {
    if |s| > 0 && IsSpace(s[|s| - 1]) then TrimRight(s[..|s| - 1]) else s
  }

  function Trim(s: seq<byte>): seq<byte> {
    TrimRight(TrimLeft(s))
  }

  /** split('\r\n') */
  function Lines(s: seq<byte>): seq<seq<byte>>
    decreases |s|
  {
    var end := IndexOf(s, CRLF, 0);
    if end.None? then [s] else [s[..end.value]] + Lines(s[end.value + 2..])
  }

  // ----- A parameter of a header -----

  function SkipSpace(h: seq<byte>, q: nat): (r: nat)
    requires q <= |h|
    ensures q <= r <= |h|
    decreases |h| - q
  {
    if q < |h| && IsSpace(h[q]) then SkipSpace(h, q + 1) else q
  }

  /** A quoted string where there is a whole one, and otherwise all up to the next semicolon. */
  function ValueAt(h: seq<byte>, v: nat): seq<byte>
    requires v <= |h|
  {
    var close := IndexOf(h, QUOTE, v + 1);
    if v < |h| && [h[v]] == QUOTE && close.Some? then h[v + 1..close.value] else
    var end := IndexOf(h, SEMICOLON, v);
    if end.Some? then h[v..end.value] else h[v..]
  }

  /** The parameter when it is spelled at q: the key in any case, an equals sign, the value. */
  function ParameterAt(h: seq<byte>, key: seq<byte>, q: nat): Option<seq<byte>>
    requires q <= |h|
  {
    var k := SkipSpace(h, q);
    if k + |key| > |h| || Folded(h[k..k + |key|]) != key then None else
    var e := SkipSpace(h, k + |key|);
    if e == |h| || h[e] != EQUALS then None
    else Some(Trim(ValueAt(h, SkipSpace(h, e + 1))))
  }

  /** A parameter stands at the start or after a semicolon. */
  predicate StartsAt(h: seq<byte>, q: nat)
    requires q <= |h|
  {
    q == 0 || [h[q - 1]] == SEMICOLON
  }

  /** The first at or after q. */
  function ParameterFrom(h: seq<byte>, key: seq<byte>, q: nat): Option<seq<byte>>
    requires q <= |h|
    decreases |h| - q
  {
    if StartsAt(h, q) && ParameterAt(h, key, q).Some? then ParameterAt(h, key, q)
    else if q == |h| then None
    else ParameterFrom(h, key, q + 1)
  }

  function Parameter(h: seq<byte>, key: seq<byte>): Option<seq<byte>> {
    ParameterFrom(h, key, 0)
  }

  // ----- The headers of a part -----

  const DISPOSITION: seq<byte> := Ascii("content-disposition")
  const TYPE: seq<byte> := Ascii("content-type")
  const ENCODING: seq<byte> := Ascii("content-transfer-encoding")
  const BINARY: seq<byte> := Ascii("binary")
  const NAME: seq<byte> := Ascii("name")
  const FILENAME: seq<byte> := Ascii("filename")

  datatype Headers = Headers(disposition: Option<seq<byte>>, contentType: Option<seq<byte>>)

  function HeaderLine(line: seq<byte>, so: Headers): Outcome<Headers> {
    var colon := IndexOf(line, COLON, 0);
    if colon.None? then Ok(so) else
    var key, value := Folded(Trim(line[..colon.value])), Trim(line[colon.value + 1..]);
    if key == DISPOSITION then Ok(so.(disposition := Some(value)))
    else if key == TYPE then Ok(so.(contentType := Some(value)))
    else if key == ENCODING && Folded(value) != BINARY then Failed(TransferEncoding)
    else Ok(so)
  }

  function HeaderLines(lines: seq<seq<byte>>, so: Headers): Outcome<Headers>
    decreases |lines|
  {
    if |lines| == 0 then Ok(so) else
    var r := HeaderLine(lines[0], so);
    if r.Failed? then r else HeaderLines(lines[1..], r.value)
  }

  function PartOf(headers: Headers, content: seq<byte>): Outcome<Part> {
    if headers.disposition.None? then Failed(NoDisposition) else
    var name := Parameter(headers.disposition.value, NAME);
    if name.None? || name.value == [] then Failed(NoName) else
    var filename := Parameter(headers.disposition.value, FILENAME);
    Ok(Part(name.value, if filename == Some([]) then None else filename, headers.contentType, content))
  }

  // ----- Parts -----

  datatype Piece = Piece(part: Part, next: nat)

  /** One part: its delimiter's line is at `start` and its content ends at the next delimiter, less the CRLF that
      belongs to that. */
  function PartAt(b: seq<byte>, delimiter: seq<byte>, start: nat): (r: Outcome<Piece>)
    ensures r.Ok? ==> start < r.value.next && r.value.next + |delimiter| <= |b|
  {
    if !Holds(b, start, CRLF) then Failed(NotCrlf) else
    var headerEnd := IndexOf(b, DOUBLE_CRLF, start + 2);
    if headerEnd.None? then Failed(NoHeaders)
    else if headerEnd.value - (start + 2) > MAX_PART_HEADER_BYTES then Failed(HeadersTooLarge) else
    var bodyStart := headerEnd.value + 4;
    var next := IndexOf(b, delimiter, bodyStart);
    if next.None? then Failed(NotTerminated) else
    var end := if Holds(b, next.value - 2, CRLF) then next.value - 2 else next.value;
    var headers := HeaderLines(Lines(b[start + 2..headerEnd.value]), Headers(None, None));
    if headers.Failed? then Failed(headers.error) else
    var part := PartOf(headers.value, Slice(b, bodyStart, end));
    if part.Failed? then Failed(part.error) else Ok(Piece(part.value, next.value))
  }

  /** The parts from the delimiter at `cursor` on, after those already read. */
  function PartsFrom(b: seq<byte>, delimiter: seq<byte>, cursor: nat, parts: seq<Part>): Outcome<seq<Part>>
    requires cursor + |delimiter| <= |b|
    decreases |b| - cursor
  {
    var start := cursor + |delimiter|;
    if Holds(b, start, DASHES) then if |parts| == 0 then Failed(NoParts) else Ok(parts) else
    var r := PartAt(b, delimiter, start);
    if r.Failed? then Failed(r.error)
    else if |parts| + 1 > MAX_PARTS then Failed(TooManyParts)
    else PartsFrom(b, delimiter, r.value.next, parts + [r.value.part])
  }

  function Parse(b: seq<byte>, boundary: seq<byte>): Outcome<seq<Part>> {
    var delimiter := DASHES + boundary;
    var cursor := IndexOf(b, delimiter, 0);
    if cursor.None? then Failed(NoBoundary) else PartsFrom(b, delimiter, cursor.value, [])
  }

  method ParseMultipart(b: seq<byte>, boundary: seq<byte>) returns (r: Outcome<seq<Part>>)
    ensures r == Parse(b, boundary)
  {
    hide IndexOf, Lines, Parameter, HeaderLine, PartAt, Holds;
    var delimiter := DASHES + boundary;
    var first := IndexOf(b, delimiter, 0);
    if first.None? { return Failed(NoBoundary); }
    var cursor: nat := first.value;
    FoundFits(b, delimiter, 0);
    var parts: seq<Part> := [];
    while true
      invariant cursor + |delimiter| <= |b|
      invariant Parse(b, boundary) == PartsFrom(b, delimiter, cursor, parts)
      decreases |b| - cursor
    {
      var start := cursor + |delimiter|;
      if Holds(b, start, DASHES) { break; }
      var piece := ReadPart(b, delimiter, start);
      if piece.Failed? { return Failed(piece.error); }
      parts := parts + [piece.value.part];
      if |parts| > MAX_PARTS { return Failed(TooManyParts); }
      cursor := piece.value.next;
    }
    if |parts| == 0 { return Failed(NoParts); }
    return Ok(parts);
  }

  lemma FoundFits(b: seq<byte>, pattern: seq<byte>, from: nat)
    requires IndexOf(b, pattern, from).Some?
    ensures IndexOf(b, pattern, from).value + |pattern| <= |b|
  {
  }

  method ReadPart(b: seq<byte>, delimiter: seq<byte>, start: nat) returns (r: Outcome<Piece>)
    ensures r == PartAt(b, delimiter, start)
  {
    hide IndexOf, Lines, Parameter, HeaderLine, Slice, PartOf, HeaderLines;
    if !Holds(b, start, CRLF) { return Failed(NotCrlf); }
    var headerStart := start + 2;
    var headerEnd := IndexOf(b, DOUBLE_CRLF, headerStart);
    if headerEnd.None? { return Failed(NoHeaders); }
    if headerEnd.value - headerStart > MAX_PART_HEADER_BYTES { return Failed(HeadersTooLarge); }
    var bodyStart := headerEnd.value + 4;
    var next := IndexOf(b, delimiter, bodyStart);
    if next.None? { return Failed(NotTerminated); }
    var end := if Holds(b, next.value - 2, CRLF) then next.value - 2 else next.value;

    var headers := ReadHeaders(b[headerStart..headerEnd.value]);
    if headers.Failed? { return Failed(headers.error); }
    var part := PartOf(headers.value, Slice(b, bodyStart, end));
    if part.Failed? { return Failed(part.error); }
    return Ok(Piece(part.value, next.value));
  }

  method ReadHeaders(block: seq<byte>) returns (r: Outcome<Headers>)
    ensures r == HeaderLines(Lines(block), Headers(None, None))
  {
    hide Lines, IndexOf, Trim, Folded;
    var lines := Lines(block);
    var disposition: Option<seq<byte>>, contentType: Option<seq<byte>> := None, None;
    for i := 0 to |lines|
      invariant HeaderLines(lines, Headers(None, None)) == HeaderLines(lines[i..], Headers(disposition, contentType))
    {
      var line := lines[i];
      assert lines[i..][0] == line && lines[i..][1..] == lines[i + 1..];
      var colon := IndexOf(line, COLON, 0);
      if colon.Some? {
        var key, value := Folded(Trim(line[..colon.value])), Trim(line[colon.value + 1..]);
        if key == DISPOSITION {
          disposition := Some(value);
        } else if key == TYPE {
          contentType := Some(value);
        } else if key == ENCODING && Folded(value) != BINARY {
          return Failed(TransferEncoding);
        }
      }
    }
    return Ok(Headers(disposition, contentType));
  }
}
