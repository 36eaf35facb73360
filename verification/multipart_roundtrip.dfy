/** Multipart bodies as a client prints them, and the parser's answer to every one. */
module MultipartRoundTrip {
  import opened Options
  import opened Buffers
  import opened Multipart
  import MultipartHeaders

  // ----- The printer -----

  const FORM: seq<byte> := Ascii("form-data; name=\"")
  const FILE: seq<byte> := Ascii("\"; filename=\"")
  const SEPARATOR: seq<byte> := Ascii(": ")

  /** How a client spells the two header names, in any case. */
  datatype Spelling = Spelling(disposition: seq<byte>, contentType: seq<byte>)

  predicate Spelled(sp: Spelling) {
    Folded(sp.disposition) == DISPOSITION && Folded(sp.contentType) == TYPE
  }

  function DispositionOf(p: Part): seq<byte> {
    if p.filename.None? then FORM + p.name + QUOTE
    else FORM + p.name + FILE + p.filename.value + QUOTE
  }

  function HeaderOf(sp: Spelling, p: Part): seq<byte> {
    var first := sp.disposition + SEPARATOR + DispositionOf(p);
    if p.contentType.None? then first else first + CRLF + (sp.contentType + SEPARATOR + p.contentType.value)
  }

  function PartBytes(sp: Spelling, p: Part): seq<byte> {
    CRLF + (HeaderOf(sp, p) + (DOUBLE_CRLF + (p.content + CRLF)))
  }

  function Print(sp: Spelling, delimiter: seq<byte>, parts: seq<Part>, epilogue: seq<byte>): seq<byte> {
    if |parts| == 0 then delimiter + (DASHES + epilogue)
    else delimiter + (PartBytes(sp, parts[0]) + Print(sp, delimiter, parts[1..], epilogue))
  }

  // ----- What is printed -----

  predicate NoBreak(s: seq<byte>) {
    forall i :: 0 <= i < |s| ==> s[i] != 13 && s[i] != 10
  }

  predicate Tidy(s: seq<byte>) {
    |s| > 0 ==> !IsSpace(s[0]) && !IsSpace(s[|s| - 1])
  }

  /** No quote or semicolon. */
  predicate Bare(s: seq<byte>) {
    forall i :: 0 <= i < |s| ==> s[i] != 34 && s[i] != 59
  }

  predicate Plain(s: seq<byte>) {
    NoBreak(s) && Tidy(s) && Bare(s)
  }

  ghost predicate Lacks(s: seq<byte>, pattern: seq<byte>) {
    forall i :: 0 <= i ==> !Holds(s, i, pattern)
  }

  ghost predicate Printable(sp: Spelling, delimiter: seq<byte>, p: Part) {
    && Plain(p.name) && p.name != []
    && (p.filename.Some? ==> Plain(p.filename.value))
    && (p.contentType.Some? ==> NoBreak(p.contentType.value) && Tidy(p.contentType.value))
    && Lacks(p.content, delimiter)
    && |HeaderOf(sp, p)| <= 8192
  }

  /** An empty filename reads as none. */
  function Meant(p: Part): Part {
    if p.filename == Some([]) then p.(filename := None) else p
  }

  function MeantAll(parts: seq<Part>): (r: seq<Part>)
    ensures |r| == |parts|
  {
    seq(|parts|, i requires 0 <= i < |parts| => Meant(parts[i]))
  }

  // ----- Text -----

  lemma TidyTrims(s: seq<byte>)
    requires Tidy(s)
    ensures Trim(s) == s && Trim([32] + s) == s
  {
    assert ([32] + s)[1..] == s;
  }

  lemma NoneHolds(s: seq<byte>, c: byte, at: nat)
    requires at < |s| ==> s[at] != c
    ensures !Holds(s, at, [c])
  {
    if at < |s| { assert s[at..at + 1][0] == s[at]; }
  }

  lemma OneHolds(s: seq<byte>, c: byte, at: nat)
    requires at < |s| && s[at] == c
    ensures Holds(s, at, [c])
  {
    assert s[at..at + 1] == [c];
  }

  /** The first of a byte is where it stands when none stands before. */
  lemma FirstByte(s: seq<byte>, c: byte, from: nat, at: nat)
    requires from <= at < |s| && s[at] == c
    requires forall i :: from <= i < at ==> s[i] != c
    ensures IndexOf(s, [c], from) == Some(at)
  {
    OneHolds(s, c, at);
    forall i | from <= i < at ensures !Holds(s, i, [c]) { NoneHolds(s, c, i); }
    IndexOfIs(s, [c], from, at);
  }

  // ----- The disposition's parameters -----

  lemma FormBytes()
    ensures |FORM| == 17 && FORM[9] == 59 && FORM[10] == 32 && FORM[15] == EQUALS && FORM[16] == 34
    ensures FORM[0] == 102 && FORM[1] == 111 && FORM[11..15] == NAME
    ensures forall i :: 0 <= i < 17 && i != 9 ==> FORM[i] != 59
    ensures NoBreak(FORM)
  {
  }

  lemma FileBytes()
    ensures |FILE| == 13 && FILE[0] == 34 && FILE[1] == 59 && FILE[2] == 32 && FILE[11] == EQUALS && FILE[12] == 34
    ensures FILE[3..11] == FILENAME
    ensures forall i :: 0 <= i < 13 && i != 1 ==> FILE[i] != 59
    ensures NoBreak(FILE)
  {
  }

  lemma KeyBytes()
    ensures |NAME| == 4 && |FILENAME| == 8 && NAME[0] == 110 && FILENAME[0] == 102 && FILENAME[1] == 105
    ensures Folded(NAME) == NAME && Folded(FILENAME) == FILENAME
  {
  }

  /** A parameter spelled ` key="value"` after a semicolon at q. */
  lemma ParameterReads(h: seq<byte>, key: seq<byte>, q: nat, value: seq<byte>)
    requires |key| > 0 && !IsSpace(key[0]) && Folded(key) == key && Plain(value)
    requires Holds(h, q, [32] + key + [EQUALS, 34] + value + [34])
    ensures q <= |h| && ParameterAt(h, key, q) == Some(value)
  {
    hide Trim, IndexOf, Folded, Plain, ValueAt, Holds;
    var k := q + 1;
    var e := k + |key|;
    var v := e + 1;
    HoldsParts(h, q, [32] + key + [EQUALS, 34] + value, [34]);
    HoldsParts(h, q, [32] + key + [EQUALS, 34], value);
    HoldsParts(h, q, [32] + key, [EQUALS, 34]);
    HoldsParts(h, q, [32], key);
    assert h[q] == h[q..q + 1][0] == 32;
    assert h[k..e] == key && h[k] == h[k..e][0];
    assert h[e] == h[e..e + 2][0] && h[e + 1] == h[e..e + 2][1];
    assert SkipSpace(h, q) == SkipSpace(h, k) == k;
    assert SkipSpace(h, e) == e && SkipSpace(h, v) == v;
    QuotedReads(h, v, value);
    PlainTrims(value);
  }

  lemma PlainTrims(value: seq<byte>)
    requires Plain(value)
    ensures Trim(value) == value
  {
    TidyTrims(value);
  }

  lemma QuotedReads(h: seq<byte>, v: nat, value: seq<byte>)
    requires v < |h| && h[v] == 34 && Plain(value) && Holds(h, v + 1, value) && Holds(h, v + 1 + |value|, [34])
    ensures ValueAt(h, v) == value
  {
    hide IndexOf;
    var close := v + 1 + |value|;
    assert h[v + 1..close] == value;
    assert h[close] == h[close..close + 1][0];
    forall i | v + 1 <= i < close ensures h[i] != 34 { assert h[i] == value[i - v - 1]; }
    FirstByte(h, 34, v + 1, close);
  }

  /** Nothing before the next semicolon starts a parameter. */
  lemma {:induction false} ParameterSkips(h: seq<byte>, key: seq<byte>, q: nat, r: nat)
    requires q <= r <= |h|
    requires forall j :: q <= j < r ==> !StartsAt(h, j) || ParameterAt(h, key, j).None?
    ensures ParameterFrom(h, key, q) == ParameterFrom(h, key, r)
    decreases r - q
  {
    if q < r { ParameterSkips(h, key, q + 1, r); }
  }

  lemma NotSpelled(h: seq<byte>, key: seq<byte>, q: nat, k: nat, i: nat)
    requires q <= |h| && SkipSpace(h, q) == k && i < |key| && (k + |key| <= |h| ==> Fold(h[k + i]) != key[i])
    ensures ParameterAt(h, key, q).None?
  {
    if k + |key| <= |h| { assert h[k..k + |key|][i] == h[k + i]; }
  }

  predicate Begins(h: seq<byte>, p: Part) {
    FORM + p.name + [34] <= h && Plain(p.name)
  }

  lemma BeginsParts(h: seq<byte>, p: Part)
    requires Begins(h, p)
    ensures |h| >= 18 + |p.name| && Holds(h, 0, FORM) && Holds(h, 17, p.name) && Holds(h, 17 + |p.name|, [34])
    ensures Holds(h, 10, [32] + NAME + [EQUALS, 34] + p.name + [34])
    ensures forall i :: 0 <= i < 17 ==> h[i] == FORM[i]
  {
    FormBytes();
    KeyBytes();
    var all := FORM + p.name + [34];
    assert h[0..|all|] == all;
    HoldsParts(h, 0, FORM + p.name, [34]);
    HoldsParts(h, 0, FORM, p.name);
    assert FORM == FORM[..10] + ([32] + NAME + [EQUALS, 34]) by {
      assert FORM[10..] == [32] + NAME + [EQUALS, 34] by {
        assert FORM[10..] == [FORM[10]] + FORM[11..15] + [FORM[15], FORM[16]];
      }
    }
    assert all == FORM[..10] + ([32] + NAME + [EQUALS, 34] + p.name + [34]);
    HoldsParts(h, 0, FORM[..10], [32] + NAME + [EQUALS, 34] + p.name + [34]);
    assert forall i :: 0 <= i < 17 ==> h[i] == h[0..17][i];
  }

  lemma NameReads(h: seq<byte>, p: Part)
    requires Begins(h, p)
    ensures Parameter(h, NAME) == Some(p.name)
  {
    hide ParameterAt, Plain, Begins, ValueAt, Trim, IndexOf, Folded;
    BeginsParts(h, p);
    BeginsPlain(h, p);
    FormBytes();
    KeyBytes();
    assert SkipSpace(h, 0) == 0;
    NotSpelled(h, NAME, 0, 0, 0);
    forall j | 0 <= j < 10 ensures !StartsAt(h, j) || ParameterAt(h, NAME, j).None? {
      if j > 0 { assert h[j - 1] == FORM[j - 1]; }
    }
    ParameterSkips(h, NAME, 0, 10);
    ParameterReads(h, NAME, 10, p.name);
    assert h[9] == FORM[9];
  }

  lemma BeginsPlain(h: seq<byte>, p: Part)
    requires Begins(h, p)
    ensures Plain(p.name)
  {
  }

  /** No filename starts before the end of the name. */
  lemma NoFilenameBefore(h: seq<byte>, p: Part, j: nat)
    requires Begins(h, p) && j <= 18 + |p.name|
    ensures j <= |h| && (!StartsAt(h, j) || ParameterAt(h, FILENAME, j).None?)
  {
    hide ParameterAt, Begins, ValueAt, Trim, IndexOf, Folded;
    BeginsParts(h, p);
    BeginsPlain(h, p);
    FormBytes();
    KeyBytes();
    if j == 0 {
      assert SkipSpace(h, 0) == 0;
      NotSpelled(h, FILENAME, 0, 0, 1);
    } else if j == 10 {
      assert h[10] == FORM[10] && h[11] == FORM[11] == FORM[11..15][0];
      assert SkipSpace(h, 10) == SkipSpace(h, 11) == 11;
      NotSpelled(h, FILENAME, 10, 11, 0);
    } else if j <= 17 {
      assert h[j - 1] == FORM[j - 1];
    } else if j <= 17 + |p.name| {
      assert h[j - 1] == h[17..17 + |p.name|][j - 18] == p.name[j - 18];
    } else {
      assert h[17 + |p.name|] == h[17 + |p.name|..18 + |p.name|][0];
    }
  }

  lemma FilenameReads(p: Part)
    requires Plain(p.name) && (p.filename.Some? ==> Plain(p.filename.value))
    ensures Parameter(DispositionOf(p), FILENAME) == p.filename
  {
    hide ParameterAt, Plain, Begins, ValueAt, Trim, IndexOf, Folded, StartsAt;
    var h := DispositionOf(p);
    DispositionBegins(p);
    var q := 18 + |p.name|;
    forall j | 0 <= j <= q ensures j <= |h| && (!StartsAt(h, j) || ParameterAt(h, FILENAME, j).None?) {
      NoFilenameBefore(h, p, j);
    }
    if p.filename.None? {
      assert |h| == q by { FormBytes(); }
      ParameterSkips(h, FILENAME, 0, q);
    } else {
      FilenamePlace(p);
      ParameterSkips(h, FILENAME, 0, q + 1);
      KeyBytes();
      ParameterReads(h, FILENAME, q + 1, p.filename.value);
    }
  }

  lemma DispositionBegins(p: Part)
    requires Plain(p.name)
    ensures Begins(DispositionOf(p), p)
  {
    FileBytes();
    var h := DispositionOf(p);
    if p.filename.Some? {
      assert FILE == [34] + FILE[1..];
      assert h == FORM + p.name + [34] + (FILE[1..] + p.filename.value + QUOTE);
    }
  }

  lemma FilenamePlace(p: Part)
    requires p.filename.Some?
    ensures var h, q := DispositionOf(p), 19 + |p.name|;
            && q <= |h| && StartsAt(h, q)
            && Holds(h, q, [32] + FILENAME + [EQUALS, 34] + p.filename.value + [34])
  {
    FormBytes();
    FileSplits();
    var h, q := DispositionOf(p), 19 + |p.name|;
    var spelled := [32] + FILENAME + [EQUALS, 34] + p.filename.value + [34];
    var before := FORM + p.name + [34, 59];
    assert h == before + spelled by { Joined(FORM + p.name, p.filename.value); }
    Placed(before, spelled);
    assert before[|before| - 1] == 59;
  }

  lemma FileSplits()
    ensures FILE == [34, 59] + ([32] + FILENAME + [EQUALS, 34])
  {
    FileBytes();
    assert FILE == [FILE[0], FILE[1], FILE[2]] + FILE[3..11] + [FILE[11], FILE[12]];
  }

  lemma Joined(a: seq<byte>, value: seq<byte>)
    ensures a + FILE + value + QUOTE == a + [34, 59] + ([32] + FILENAME + [EQUALS, 34] + value + [34])
  {
    FileSplits();
    hide FILE, FILENAME;
  }

  lemma Placed(before: seq<byte>, part: seq<byte>)
    ensures Holds(before + part, |before|, part)
  {
  }

  // ----- Header lines -----

  lemma HeaderNameBytes(sp: Spelling)
    requires Spelled(sp)
    ensures |sp.disposition| == 19 && |sp.contentType| == 12
    ensures NoBreak(sp.disposition) && NoBreak(sp.contentType) && Tidy(sp.disposition) && Tidy(sp.contentType)
    ensures forall i :: 0 <= i < 19 ==> sp.disposition[i] != 58
    ensures forall i :: 0 <= i < 12 ==> sp.contentType[i] != 58
    ensures DISPOSITION != TYPE
  {
    assert |DISPOSITION| == 19 && |TYPE| == 12;
    NamesAreWords(DISPOSITION);
    NamesAreWords(TYPE);
    forall i | 0 <= i < 19 ensures sp.disposition[i] != 58 && sp.disposition[i] > 32 {
      assert Fold(sp.disposition[i]) == DISPOSITION[i];
    }
    forall i | 0 <= i < 12 ensures sp.contentType[i] != 58 && sp.contentType[i] > 32 {
      assert Fold(sp.contentType[i]) == TYPE[i];
    }
  }

  lemma NamesAreWords(name: seq<byte>)
    requires name == DISPOSITION || name == TYPE
    ensures forall i :: 0 <= i < |name| ==> name[i] == 45 || 97 <= name[i] <= 122
  {
  }

  lemma LineReads(key: seq<byte>, value: seq<byte>, so: Headers)
    requires Tidy(key) && Tidy(value) && forall i :: 0 <= i < |key| ==> key[i] != 58
    ensures HeaderLine(key + SEPARATOR + value, so)
      == if Folded(key) == DISPOSITION then Ok(so.(disposition := Some(value)))
         else if Folded(key) == TYPE then Ok(so.(contentType := Some(value)))
         else if Folded(key) == ENCODING && Folded(value) != BINARY then Failed(TransferEncoding)
         else Ok(so)
  {
    hide Trim, IndexOf, Folded, Tidy;
    var line := key + SEPARATOR + value;
    assert SEPARATOR == [58, 32];
    assert line[|key|] == 58;
    forall i | 0 <= i < |key| ensures line[i] != 58 { assert line[i] == key[i]; }
    FirstByte(line, 58, 0, |key|);
    assert line[..|key|] == key && line[|key| + 1..] == [32] + value;
    TidyTrims(key);
    TidyTrims(value);
  }

  lemma NotBreak(s: seq<byte>, i: nat)
    requires i < |s| ==> s[i] != 13
    ensures !Holds(s, i, CRLF)
  {
    if i + 2 <= |s| { assert s[i..i + 2][0] == s[i]; }
  }

  lemma OneLine(s: seq<byte>)
    requires NoBreak(s)
    ensures Lines(s) == [s]
  {
    var r := IndexOf(s, CRLF, 0);
    if r.Some? { NotBreak(s, r.value); }
  }

  lemma TwoLines(a: seq<byte>, b: seq<byte>)
    requires NoBreak(a) && NoBreak(b)
    ensures Lines(a + CRLF + b) == [a, b]
  {
    var s := a + CRLF + b;
    assert s[|a|..|a| + 2] == CRLF;
    forall i | 0 <= i < |a| ensures !Holds(s, i, CRLF) {
      assert s[i] == a[i];
      NotBreak(s, i);
    }
    IndexOfIs(s, CRLF, 0, |a|);
    assert s[..|a|] == a && s[|a| + 2..] == b;
    OneLine(b);
  }

  lemma DispositionTidy(p: Part)
    requires Plain(p.name) && (p.filename.Some? ==> Plain(p.filename.value))
    ensures NoBreak(DispositionOf(p)) && Tidy(DispositionOf(p))
  {
    FormBytes();
    FileBytes();
    var h := DispositionOf(p);
    assert h[0] == FORM[0] && h[|h| - 1] == 34;
  }

  /** The header block reads as the disposition and the type printed. */
  lemma HeadersRead(sp: Spelling, delimiter: seq<byte>, p: Part)
    requires Spelled(sp) && Printable(sp, delimiter, p)
    ensures HeaderLines(Lines(HeaderOf(sp, p)), Headers(None, None)) == Ok(Headers(Some(DispositionOf(p)), p.contentType))
  {
    hide HeaderLine, DispositionOf, Lines, Trim, Folded, NoBreak, Tidy, Plain, Lacks;
    var first := sp.disposition + SEPARATOR + DispositionOf(p);
    HeaderNameBytes(sp);
    DispositionTidy(p);
    FirstLine(sp, p);
    SpelledNames(sp);
    LineReads(sp.disposition, DispositionOf(p), Headers(None, None));
    var so := Headers(Some(DispositionOf(p)), None);
    if p.contentType.None? {
      OneLine(first);
      OneHeader(first, Headers(None, None));
    } else {
      var second := sp.contentType + SEPARATOR + p.contentType.value;
      JoinedNoBreak(sp.contentType, p.contentType.value);
      TwoLines(first, second);
      LineReads(sp.contentType, p.contentType.value, so);
      TwoHeaders(first, second, Headers(None, None));
    }
  }

  lemma OneHeader(line: seq<byte>, so: Headers)
    ensures HeaderLines([line], so) == HeaderLine(line, so)
  {
    hide HeaderLine;
    var lines := [line];
    assert |lines[1..]| == 0;
  }

  lemma TwoHeaders(a: seq<byte>, b: seq<byte>, so: Headers)
    ensures HeaderLines([a, b], so) == var r := HeaderLine(a, so); if r.Failed? then r else HeaderLine(b, r.value)
  {
    hide HeaderLine;
    var lines := [a, b];
    assert lines[1..] == [b];
    var r := HeaderLine(a, so);
    if r.Ok? { OneHeader(b, r.value); }
  }

  lemma SpelledNames(sp: Spelling)
    requires Spelled(sp)
    ensures Folded(sp.disposition) == DISPOSITION && Folded(sp.contentType) == TYPE
  {
  }

  lemma JoinedNoBreak(a: seq<byte>, b: seq<byte>)
    requires NoBreak(a) && NoBreak(b)
    ensures NoBreak(a + SEPARATOR + b)
  {
  }

  lemma FirstLine(sp: Spelling, p: Part)
    requires NoBreak(sp.disposition) && NoBreak(DispositionOf(p))
    ensures NoBreak(sp.disposition + SEPARATOR + DispositionOf(p))
  {
    JoinedNoBreak(sp.disposition, DispositionOf(p));
  }

  /** The part read from its headers. */
  lemma PartReads(p: Part)
    requires Plain(p.name) && p.name != [] && (p.filename.Some? ==> Plain(p.filename.value))
    ensures PartOf(Headers(Some(DispositionOf(p)), p.contentType), p.content) == Ok(Meant(p))
  {
    hide Parameter, DispositionOf, Plain;
    DispositionBegins(p);
    NameReads(DispositionOf(p), p);
    FilenameReads(p);
  }

  // ----- Finding the ends -----

  /** The headers' own end is the first: they have one line break at most, and text after it. */
  lemma HeadersEnd(sp: Spelling, delimiter: seq<byte>, p: Part, i: nat)
    requires Spelled(sp) && Printable(sp, delimiter, p) && i < |HeaderOf(sp, p)|
    ensures var h := HeaderOf(sp, p); h[i] == 13 ==> i + 2 < |h| && h[i + 2] != 13
  {
    hide DispositionOf, Folded, Plain, Lacks, Tidy;
    var first := sp.disposition + SEPARATOR + DispositionOf(p);
    HeaderNameBytes(sp);
    DispositionTidy(p);
    FirstLine(sp, p);
    if p.contentType.Some? {
      var second := sp.contentType + SEPARATOR + p.contentType.value;
      JoinedNoBreak(sp.contentType, p.contentType.value);
      var h := first + CRLF + second;
      assert HeaderOf(sp, p) == h;
      if i < |first| {
        assert h[i] == first[i];
      } else if i >= |first| + 2 {
        assert h[i] == second[i - |first| - 2];
      } else if i == |first| {
        assert h[i + 2] == second[0];
      }
    }
  }

  lemma HeaderEndFound(b: seq<byte>, start: nat, sp: Spelling, delimiter: seq<byte>, p: Part)
    requires Spelled(sp) && Printable(sp, delimiter, p) && Holds(b, start, HeaderOf(sp, p) + DOUBLE_CRLF)
    ensures IndexOf(b, DOUBLE_CRLF, start) == Some(start + |HeaderOf(sp, p)|)
  {
    hide HeaderOf, Printable;
    var h := HeaderOf(sp, p);
    HoldsParts(b, start, h, DOUBLE_CRLF);
    var all := h + DOUBLE_CRLF;
    forall i | start <= i < start + |h| ensures !Holds(b, i, DOUBLE_CRLF) {
      HeadersEnd(sp, delimiter, p, i - start);
      assert b[i] == b[start..start + |h|][i - start] == h[i - start];
      if b[i] == 13 { assert b[i + 2] == b[start..start + |h|][i + 2 - start] == h[i + 2 - start]; }
      NotDouble(b, i);
    }
    IndexOfIs(b, DOUBLE_CRLF, start, start + |h|);
  }

  lemma NotDouble(b: seq<byte>, i: nat)
    requires i < |b| && (b[i] == 13 ==> i + 2 < |b| && b[i + 2] != 13)
    ensures !Holds(b, i, DOUBLE_CRLF)
  {
    if i + 4 <= |b| {
      var w := b[i..i + 4];
      assert w[0] == b[i] && w[2] == b[i + 2];
    }
  }

  /** A delimiter has no CR or LF, so none starts before the one that follows the content's CRLF. */
  lemma DelimiterFound(b: seq<byte>, from: nat, content: seq<byte>, delimiter: seq<byte>)
    requires NoBreak(delimiter) && |delimiter| > 0 && Lacks(content, delimiter) && Holds(b, from, content + CRLF + delimiter)
    ensures IndexOf(b, delimiter, from) == Some(from + |content| + 2)
    ensures Holds(b, from + |content|, CRLF) && b[from..from + |content|] == content
  {
    hide IndexOf, Lacks, NoBreak;
    var at := from + |content| + 2;
    HoldsParts(b, from, content + CRLF, delimiter);
    HoldsParts(b, from, content, CRLF);
    forall i | from <= i < at ensures !Holds(b, i, delimiter) {
      NoneBefore(b, from, content, delimiter, i);
    }
    IndexOfIs(b, delimiter, from, at);
  }

  lemma HoldsInside(b: seq<byte>, from: nat, content: seq<byte>, o: nat, n: nat)
    requires Holds(b, from, content) && o + n <= |content|
    ensures content[o..o + n] == b[from + o..from + o + n]
  {
    var x, y := content[o..o + n], b[from + o..from + o + n];
    assert |x| == |y| == n;
    forall i | 0 <= i < n ensures x[i] == y[i] {
      assert content[o + i] == b[from + (o + i)];
    }
  }

  /** A part that covers a line break is no delimiter. */
  lemma CoversBreak(b: seq<byte>, delimiter: seq<byte>, i: nat, at: nat)
    requires NoBreak(delimiter) && i <= at < i + |delimiter| && at < |b| && (b[at] == 13 || b[at] == 10)
    ensures !Holds(b, i, delimiter)
  {
    if i + |delimiter| <= |b| {
      var w := b[i..i + |delimiter|];
      assert w[at - i] == b[at];
      assert delimiter[at - i] != b[at];
    }
  }

  lemma BreakStands(b: seq<byte>, at: nat)
    requires Holds(b, at, CRLF)
    ensures at + 2 <= |b| && b[at] == 13 && b[at + 1] == 10
  {
    assert b[at] == b[at..at + 2][0] && b[at + 1] == b[at..at + 2][1];
  }

  lemma NotInside(b: seq<byte>, from: nat, content: seq<byte>, delimiter: seq<byte>, i: nat)
    requires Lacks(content, delimiter) && Holds(b, from, content)
    requires from <= i && i + |delimiter| <= from + |content|
    ensures !Holds(b, i, delimiter)
  {
    HoldsInside(b, from, content, i - from, |delimiter|);
    assert !Holds(content, i - from, delimiter);
  }

  lemma NoneBefore(b: seq<byte>, from: nat, content: seq<byte>, delimiter: seq<byte>, i: nat)
    requires NoBreak(delimiter) && |delimiter| > 0 && Lacks(content, delimiter)
    requires Holds(b, from, content) && Holds(b, from + |content|, CRLF)
    requires from <= i < from + |content| + 2
    ensures !Holds(b, i, delimiter)
  {
    hide *;
    var end := from + |content|;
    BreakStands(b, end);
    if i + |delimiter| <= end {
      NotInside(b, from, content, delimiter, i);
    } else if i <= end {
      CoversBreak(b, delimiter, i, end);
    } else {
      CoversBreak(b, delimiter, i, end + 1);
    }
  }

  // ----- Parsing what was printed -----

  lemma PartSplits(b: seq<byte>, start: nat, sp: Spelling, p: Part, delimiter: seq<byte>)
    requires Holds(b, start, PartBytes(sp, p) + delimiter)
    ensures var h := |HeaderOf(sp, p)|;
            && Holds(b, start, CRLF) && Holds(b, start + 2, HeaderOf(sp, p) + DOUBLE_CRLF)
            && b[start + 2..start + 2 + h] == HeaderOf(sp, p)
            && Holds(b, start + 6 + h, p.content + CRLF + delimiter)
            && |PartBytes(sp, p)| == 8 + h + |p.content|
  {
    hide HeaderOf;
    var h := HeaderOf(sp, p);
    assert PartBytes(sp, p) + delimiter == CRLF + ((h + DOUBLE_CRLF) + (p.content + CRLF + delimiter));
    HoldsParts(b, start, CRLF, (h + DOUBLE_CRLF) + (p.content + CRLF + delimiter));
    HoldsParts(b, start + 2, h + DOUBLE_CRLF, p.content + CRLF + delimiter);
    HoldsParts(b, start + 2, h, DOUBLE_CRLF);
  }

  lemma PartAtReads(b: seq<byte>, start: nat, sp: Spelling, p: Part, delimiter: seq<byte>)
    requires Spelled(sp) && Printable(sp, delimiter, p) && NoBreak(delimiter) && |delimiter| > 0
    requires Holds(b, start, PartBytes(sp, p) + delimiter)
    ensures PartAt(b, delimiter, start) == Ok(Piece(Meant(p), start + |PartBytes(sp, p)|))
  {
    hide HeaderOf, IndexOf, Lines, HeaderLines, Holds, PartBytes, PartOf, Plain, Lacks, DispositionOf, NoBreak, Slice;
    PartSplits(b, start, sp, p, delimiter);
    var h := |HeaderOf(sp, p)|;
    HeaderEndFound(b, start + 2, sp, delimiter, p);
    HeadersRead(sp, delimiter, p);
    PartReads(p);
    DelimiterFound(b, start + 6 + h, p.content, delimiter);
    HoldsWithin(b, start + 6 + h, p.content + CRLF + delimiter);
    SliceIs(b, start + 6 + h, start + 6 + h + |p.content|);
    HoldsWithin(b, start, PartBytes(sp, p) + delimiter);
  }

  lemma SliceIs(b: seq<byte>, x: nat, y: nat)
    requires x <= y <= |b|
    ensures Slice(b, x, y) == b[x..y]
  {
  }

  lemma HoldsWithin(b: seq<byte>, at: nat, part: seq<byte>)
    requires Holds(b, at, part)
    ensures at + |part| <= |b|
  {
  }

  ghost predicate AllPrintable(sp: Spelling, delimiter: seq<byte>, parts: seq<Part>) {
    forall i :: 0 <= i < |parts| ==> Printable(sp, delimiter, parts[i])
  }

  lemma PrintBegins(sp: Spelling, delimiter: seq<byte>, parts: seq<Part>, epilogue: seq<byte>)
    ensures exists rest :: Print(sp, delimiter, parts, epilogue) == delimiter + rest
  {
    if |parts| == 0 {
      assert Print(sp, delimiter, parts, epilogue) == delimiter + (DASHES + epilogue);
    } else {
      assert Print(sp, delimiter, parts, epilogue)
        == delimiter + (PartBytes(sp, parts[0]) + Print(sp, delimiter, parts[1..], epilogue));
    }
  }

  function Answer(parts: seq<Part>): Outcome<seq<Part>> {
    if |parts| == 0 then Failed(NoParts) else if |parts| > 16 then Failed(TooManyParts) else Ok(parts)
  }

  lemma PrintSplits(sp: Spelling, delimiter: seq<byte>, parts: seq<Part>, epilogue: seq<byte>)
    requires |parts| > 0
    ensures Print(sp, delimiter, parts, epilogue)
      == delimiter + (PartBytes(sp, parts[0]) + Print(sp, delimiter, parts[1..], epilogue))
  {
    hide PartBytes;
  }

  lemma NextPart(b: seq<byte>, cursor: nat, sp: Spelling, delimiter: seq<byte>, parts: seq<Part>, epilogue: seq<byte>)
    requires |parts| > 0 && Holds(b, cursor, Print(sp, delimiter, parts, epilogue))
    ensures var start := cursor + |delimiter|;
            && Holds(b, start, PartBytes(sp, parts[0]) + delimiter)
            && Holds(b, start + |PartBytes(sp, parts[0])|, Print(sp, delimiter, parts[1..], epilogue))
            && !Holds(b, start, DASHES)
  {
    hide *;
    var first, rest := PartBytes(sp, parts[0]), Print(sp, delimiter, parts[1..], epilogue);
    PrintSplits(sp, delimiter, parts, epilogue);
    HoldsParts(b, cursor, delimiter, first + rest);
    HoldsParts(b, cursor + |delimiter|, first, rest);
    PrintBegins(sp, delimiter, parts[1..], epilogue);
    var tail :| rest == delimiter + tail;
    assert first + rest == (first + delimiter) + tail;
    HoldsParts(b, cursor + |delimiter|, first + delimiter, tail);
    PartStarts(b, cursor + |delimiter|, sp, parts[0], delimiter);
  }

  lemma PartStarts(b: seq<byte>, start: nat, sp: Spelling, p: Part, delimiter: seq<byte>)
    requires Holds(b, start, PartBytes(sp, p) + delimiter)
    ensures !Holds(b, start, DASHES)
  {
    PartSplits(b, start, sp, p, delimiter);
    assert b[start..start + 2][0] == 13;
  }

  lemma {:induction false} PartsRead(b: seq<byte>, cursor: nat, sp: Spelling, delimiter: seq<byte>, parts: seq<Part>, epilogue: seq<byte>, done: seq<Part>)
    requires Spelled(sp) && AllPrintable(sp, delimiter, parts) && NoBreak(delimiter) && |delimiter| > 0
    requires |done| <= 16 && cursor + |delimiter| <= |b|
    requires Holds(b, cursor, Print(sp, delimiter, parts, epilogue))
    ensures PartsFrom(b, delimiter, cursor, done) == Answer(done + MeantAll(parts))
    decreases |parts|
  {
    hide PartAt, Holds, PartBytes, Spelled, Printable, NoBreak, Meant;
    if |parts| == 0 {
      HoldsParts(b, cursor, delimiter, DASHES + epilogue);
      HoldsParts(b, cursor + |delimiter|, DASHES, epilogue);
      assert done + MeantAll(parts) == done;
    } else {
      var p := parts[0];
      var start := cursor + |delimiter|;
      NextPart(b, cursor, sp, delimiter, parts, epilogue);
      PartAtReads(b, start, sp, p, delimiter);
      var next := start + |PartBytes(sp, p)|;
      assert MeantAll(parts) == [Meant(p)] + MeantAll(parts[1..]);
      assert done + MeantAll(parts) == done + [Meant(p)] + MeantAll(parts[1..]);
      if |done| + 1 <= 16 {
        PartsRead(b, next, sp, delimiter, parts[1..], epilogue, done + [Meant(p)]);
      }
    }
  }

  /** What may stand before the first delimiter: nothing, or lines in which it does not occur. */
  ghost predicate Preamble(s: seq<byte>, delimiter: seq<byte>) {
    s == [] || (|s| >= 2 && s[|s| - 2..] == CRLF && Lacks(s[..|s| - 2], delimiter))
  }

  lemma FirstDelimiter(preamble: seq<byte>, delimiter: seq<byte>, rest: seq<byte>)
    requires NoBreak(delimiter) && |delimiter| > 0 && Preamble(preamble, delimiter)
    ensures IndexOf(preamble + (delimiter + rest), delimiter, 0) == Some(|preamble|)
  {
    hide IndexOf, NoBreak, Lacks;
    var b := preamble + (delimiter + rest);
    assert b[|preamble|..|preamble| + |delimiter|] == delimiter;
    if preamble == [] {
      IndexOfIs(b, delimiter, 0, 0);
    } else {
      var q := preamble[..|preamble| - 2];
      assert b[0..|preamble| + |delimiter|] == q + CRLF + delimiter;
      DelimiterFound(b, 0, q, delimiter);
    }
  }

  /** For any list of printable parts, whatever bytes their contents hold short of the delimiter, between any
      preamble and epilogue: one to sixteen parts come back, with empty filenames read as none, and no parts or
      more than sixteen are refused. */
  lemma ParsePrint(sp: Spelling, boundary: seq<byte>, parts: seq<Part>, preamble: seq<byte>, epilogue: seq<byte>)
    requires Spelled(sp) && NoBreak(boundary)
    requires AllPrintable(sp, DASHES + boundary, parts) && Preamble(preamble, DASHES + boundary)
    ensures Parse(preamble + Print(sp, DASHES + boundary, parts, epilogue), boundary) == Answer(MeantAll(parts))
  {
    hide IndexOf, Spelled, Printable, AllPrintable, PartsFrom, Print, MeantAll, Preamble;
    var delimiter := DASHES + boundary;
    var printed := Print(sp, delimiter, parts, epilogue);
    PrintBegins(sp, delimiter, parts, epilogue);
    var rest :| printed == delimiter + rest;
    var b := preamble + printed;
    FirstDelimiter(preamble, delimiter, rest);
    assert b[|preamble|..|preamble| + |printed|] == printed;
    PartsRead(b, |preamble|, sp, delimiter, parts, epilogue, []);
    assert [] + MeantAll(parts) == MeantAll(parts);
  }

  /** They come back exactly as they were when there are one to sixteen and no filename is empty. */
  lemma ParsePrintExact(sp: Spelling, boundary: seq<byte>, parts: seq<Part>, preamble: seq<byte>, epilogue: seq<byte>)
    requires Spelled(sp) && NoBreak(boundary)
    requires AllPrintable(sp, DASHES + boundary, parts) && Preamble(preamble, DASHES + boundary)
    ensures Parse(preamble + Print(sp, DASHES + boundary, parts, epilogue), boundary) == Ok(parts)
      <==> 1 <= |parts| <= 16 && forall i :: 0 <= i < |parts| ==> parts[i].filename != Some([])
  {
    hide Spelled, AllPrintable, Parse, Print, Preamble;
    ParsePrint(sp, boundary, parts, preamble, epilogue);
    if MeantAll(parts) == parts {
      forall i | 0 <= i < |parts| ensures parts[i].filename != Some([]) {
        assert Meant(parts[i]) == MeantAll(parts)[i] == parts[i];
      }
    }
  }

  // ----- Whatever the body -----

  /** What of the bytes before a delimiter belongs to it: a CRLF, if one is there. */
  function Closing(b: seq<byte>, at: nat, next: nat): seq<byte> {
    if at + 2 <= next && Holds(b, next - 2, [13, 10]) then [13, 10] else []
  }

  /** The delimiter at `cursor`, its CRLF, a header block of this part's, the first empty line, and then from `at`
      this part's content, whole, up to what belongs to the first delimiter after it, which is at `next`. */
  ghost predicate Bracketed(b: seq<byte>, delimiter: seq<byte>, cursor: nat, at: nat, next: nat, p: Part) {
    var start := cursor + |delimiter| + 2;
    && start + 4 <= at <= next <= |b|
    && Holds(b, cursor, delimiter) && Holds(b, cursor + |delimiter|, [13, 10])
    && at - 4 - start <= 8192
    && Holds(b, at - 4, [13, 10, 13, 10]) && (forall i :: start <= i < at - 4 ==> !Holds(b, i, [13, 10, 13, 10]))
    && Holds(b, next, delimiter) && (forall i :: at <= i < next ==> !Holds(b, i, delimiter))
    && b[at..next] == p.content + Closing(b, at, next)
    && MultipartHeaders.Describes(b[start..at - 4], p)
  }

  ghost predicate Framed(b: seq<byte>, delimiter: seq<byte>, cursor: nat, next: nat, p: Part) {
    exists at :: Bracketed(b, delimiter, cursor, at, next, p)
  }

  /** The parts stand one after the other between these delimiters, and the last of them closes the body. */
  ghost predicate Chain(b: seq<byte>, delimiter: seq<byte>, cursors: seq<nat>, parts: seq<Part>) {
    && |cursors| == |parts| + 1
    && (forall k :: 0 <= k < |parts| ==> Framed(b, delimiter, cursors[k], cursors[k + 1], parts[k]))
    && Holds(b, cursors[|parts|], delimiter) && Holds(b, cursors[|parts|] + |delimiter|, [45, 45])
  }

  /** The slice the parser takes, also where the delimiter follows the empty line at once. */
  lemma ContentIs(b: seq<byte>, at: nat, next: nat)
    requires 4 <= at <= next <= |b| && Holds(b, at - 4, DOUBLE_CRLF)
    ensures var end := if Holds(b, next - 2, CRLF) then next - 2 else next;
            Slice(b, at, end) + Closing(b, at, next) == b[at..next]
  {
    var four := b[at - 4..at];
    assert four[2] == b[at - 2] && four[3] == b[at - 1];
    if next < at + 2 {
      if next == at {
        assert b[at - 2..at] == CRLF;
      } else {
        NotBreak(b, at - 1);
      }
    } else if Holds(b, next - 2, CRLF) {
      assert b[at..next] == b[at..next - 2] + b[next - 2..next];
    }
  }

  lemma SameContent(x: seq<byte>, y: seq<byte>, closing: seq<byte>)
    requires x + closing == y + closing
    ensures x == y
  {
    assert x == (x + closing)[..|x|];
    assert y == (y + closing)[..|y|];
  }

  lemma PartContent(headers: Headers, content: seq<byte>)
    requires PartOf(headers, content).Ok?
    ensures PartOf(headers, content).value.content == content
    ensures PartOf(headers, content).value.name != [] && PartOf(headers, content).value.filename != Some([])
  {
    hide Parameter;
  }

  lemma FirstOf(b: seq<byte>, pattern: seq<byte>, from: nat)
    requires IndexOf(b, pattern, from).Some?
    ensures var at := IndexOf(b, pattern, from).value;
            from <= at && Holds(b, at, pattern) && forall i :: from <= i < at ==> !Holds(b, i, pattern)
  {
  }

  lemma PartIsBracketed(b: seq<byte>, delimiter: seq<byte>, cursor: nat)
    requires Holds(b, cursor, delimiter) && PartAt(b, delimiter, cursor + |delimiter|).Ok?
    ensures var r := PartAt(b, delimiter, cursor + |delimiter|).value; Framed(b, delimiter, cursor, r.next, r.part)
  {
    hide IndexOf, Lines, HeaderLines, PartOf, Slice, Holds, Closing, MultipartHeaders.Describes;
    var start := cursor + |delimiter| + 2;
    FirstOf(b, DOUBLE_CRLF, start);
    var at := IndexOf(b, DOUBLE_CRLF, start).value + 4;
    FirstOf(b, delimiter, at);
    var r := PartAt(b, delimiter, cursor + |delimiter|).value;
    HoldsWithin(b, r.next, delimiter);
    ContentIs(b, at, r.next);
    var end := if Holds(b, r.next - 2, CRLF) then r.next - 2 else r.next;
    PartContent(HeaderLines(Lines(b[start..at - 4]), Headers(None, None)).value, Slice(b, at, end));
    MultipartHeaders.DescribesWhen(b[start..at - 4], r.part);
    assert Bracketed(b, delimiter, cursor, at, r.next, r.part);
  }

  lemma BracketedIsPart(b: seq<byte>, delimiter: seq<byte>, cursor: nat, at: nat, next: nat, p: Part)
    requires Bracketed(b, delimiter, cursor, at, next, p)
    ensures PartAt(b, delimiter, cursor + |delimiter|) == Ok(Piece(p, next))
  {
    hide IndexOf, Lines, HeaderLines, PartOf, Slice, Holds, Closing, MultipartHeaders.Describes;
    MultipartHeaders.DescribesWhen(b[cursor + |delimiter| + 2..at - 4], p);
    IndexOfIs(b, DOUBLE_CRLF, cursor + |delimiter| + 2, at - 4);
    IndexOfIs(b, delimiter, at, next);
    ContentIs(b, at, next);
    SameContent(Slice(b, at, if Holds(b, next - 2, CRLF) then next - 2 else next), p.content, Closing(b, at, next));
  }

  lemma NotClosed(b: seq<byte>, at: nat)
    requires Holds(b, at, CRLF)
    ensures !Holds(b, at, DASHES)
  {
    assert b[at..at + 2][0] == 13;
  }

  lemma ChainAdds(b: seq<byte>, delimiter: seq<byte>, cursor: nat, p: Part, cursors: seq<nat>, parts: seq<Part>)
    requires Chain(b, delimiter, cursors, parts) && Framed(b, delimiter, cursor, cursors[0], p)
    ensures Chain(b, delimiter, [cursor] + cursors, [p] + parts)
  {
    hide Framed, Holds;
    var cs, ps := [cursor] + cursors, [p] + parts;
    forall k | 0 <= k < |ps| ensures Framed(b, delimiter, cs[k], cs[k + 1], ps[k]) {
      if k > 0 { assert cs[k] == cursors[k - 1] && cs[k + 1] == cursors[k] && ps[k] == parts[k - 1]; }
    }
  }

  lemma {:induction false} PartsAreChained(b: seq<byte>, delimiter: seq<byte>, cursor: nat, done: seq<Part>) returns (cursors: seq<nat>)
    requires |delimiter| > 0 && Holds(b, cursor, delimiter) && cursor + |delimiter| <= |b|
    requires |done| <= 16 && PartsFrom(b, delimiter, cursor, done).Ok?
    ensures var r := PartsFrom(b, delimiter, cursor, done).value;
            && done <= r && 1 <= |r| <= 16
            && |cursors| > 0 && cursors[0] == cursor && Chain(b, delimiter, cursors, r[|done|..])
    decreases |b| - cursor
  {
    hide PartAt, Holds, Framed;
    var start := cursor + |delimiter|;
    var r := PartsFrom(b, delimiter, cursor, done).value;
    if Holds(b, start, DASHES) {
      cursors := [cursor];
      assert |r[|done|..]| == 0;
    } else {
      var piece := PartAt(b, delimiter, start).value;
      PartIsBracketed(b, delimiter, cursor);
      FramedEnds(b, delimiter, cursor, piece.next, piece.part);
      var rest := PartsAreChained(b, delimiter, piece.next, done + [piece.part]);
      ChainAdds(b, delimiter, cursor, piece.part, rest, r[|done| + 1..]);
      cursors := [cursor] + rest;
      assert r[|done|] == (done + [piece.part])[|done|];
      assert r[|done|..] == [piece.part] + r[|done| + 1..];
    }
  }

  lemma FramedEnds(b: seq<byte>, delimiter: seq<byte>, cursor: nat, next: nat, p: Part)
    requires Framed(b, delimiter, cursor, next, p)
    ensures cursor + |delimiter| < next && Holds(b, cursor, delimiter) && Holds(b, next, delimiter)
    ensures Holds(b, cursor + |delimiter|, CRLF)
    ensures PartAt(b, delimiter, cursor + |delimiter|) == Ok(Piece(p, next))
  {
    hide PartAt, Holds, Closing, MultipartHeaders.Describes;
    var at: nat :| Bracketed(b, delimiter, cursor, at, next, p);
    BracketedIsPart(b, delimiter, cursor, at, next, p);
  }

  lemma {:induction false} ChainIsParsed(b: seq<byte>, delimiter: seq<byte>, cursors: seq<nat>, parts: seq<Part>, done: seq<Part>)
    requires |delimiter| > 0 && Chain(b, delimiter, cursors, parts) && 1 <= |done| + |parts| <= 16
    ensures cursors[0] + |delimiter| <= |b|
    ensures PartsFrom(b, delimiter, cursors[0], done) == Ok(done + parts)
    decreases |parts|
  {
    hide PartAt, Holds, Framed;
    if |parts| == 0 {
      HoldsWithin(b, cursors[0], delimiter);
      assert done + parts == done;
    } else {
      var p := parts[0];
      assert Framed(b, delimiter, cursors[0], cursors[1], p);
      FramedEnds(b, delimiter, cursors[0], cursors[1], p);
      HoldsWithin(b, cursors[0], delimiter);
      NotClosed(b, cursors[0] + |delimiter|);
      ChainRest(b, delimiter, cursors, parts);
      ChainIsParsed(b, delimiter, cursors[1..], parts[1..], done + [p]);
      assert done + [p] + parts[1..] == done + parts;
    }
  }

  lemma ChainRest(b: seq<byte>, delimiter: seq<byte>, cursors: seq<nat>, parts: seq<Part>)
    requires Chain(b, delimiter, cursors, parts) && |parts| > 0
    ensures Chain(b, delimiter, cursors[1..], parts[1..])
  {
    hide Framed, Holds;
    forall k | 0 <= k < |parts| - 1 ensures Framed(b, delimiter, cursors[1..][k], cursors[1..][k + 1], parts[1..][k]) {
      assert Framed(b, delimiter, cursors[k + 1], cursors[k + 2], parts[k + 1]);
    }
  }

  /** The body's delimiters from the first on, with these parts between them. */
  ghost predicate Frames(b: seq<byte>, delimiter: seq<byte>, cursors: seq<nat>, parts: seq<Part>) {
    |cursors| > 0 && IndexOf(b, delimiter, 0) == Some(cursors[0]) && Chain(b, delimiter, cursors, parts)
  }

  /** A body is accepted with these parts exactly when there are one to sixteen of them and they stand in it one
      after the other from the first delimiter on, each content whole between its headers and the next delimiter. */
  lemma AcceptedWhen(b: seq<byte>, boundary: seq<byte>, parts: seq<Part>)
    ensures Parse(b, boundary) == Ok(parts)
      <==> 1 <= |parts| <= 16 && exists cursors :: Frames(b, [45, 45] + boundary, cursors, parts)
  {
    hide PartsFrom, Chain, IndexOf, Holds;
    var delimiter := DASHES + boundary;
    if Parse(b, boundary) == Ok(parts) {
      FirstOf(b, delimiter, 0);
      FoundFits(b, delimiter, 0);
      var none: seq<Part> := [];
      var cursors := PartsAreChained(b, delimiter, IndexOf(b, delimiter, 0).value, none);
      assert parts[0..] == parts;
      assert Frames(b, delimiter, cursors, parts);
    }
    forall cursors | Frames(b, delimiter, cursors, parts) && 1 <= |parts| <= 16
      ensures Parse(b, boundary) == Ok(parts)
    {
      var none: seq<Part> := [];
      ChainIsParsed(b, delimiter, cursors, parts, none);
      assert none + parts == parts;
    }
  }

  /** Every accepted part has a name, a filename only if it is not empty, and no delimiter in its content. */
  lemma FramedIsSound(b: seq<byte>, delimiter: seq<byte>, cursor: nat, next: nat, p: Part)
    requires |delimiter| > 0 && Framed(b, delimiter, cursor, next, p)
    ensures p.name != [] && p.filename != Some([]) && Lacks(p.content, delimiter)
  {
    hide Closing, IndexOf, HeaderLines, Lines, PartOf, MultipartHeaders.Describes;
    var at: nat :| Bracketed(b, delimiter, cursor, at, next, p);
    var block := b[cursor + |delimiter| + 2..at - 4];
    MultipartHeaders.DescribesWhen(block, p);
    PartContent(HeaderLines(Lines(block), Headers(None, None)).value, p.content);
    StandsAt(b, at, next, p.content, Closing(b, at, next));
    forall i | 0 <= i ensures !Holds(p.content, i, delimiter) {
      if i + |delimiter| <= |p.content| {
        HoldsInside(b, at, p.content, i, |delimiter|);
        assert !Holds(b, at + i, delimiter);
      }
    }
  }

  lemma StandsAt(b: seq<byte>, at: nat, next: nat, content: seq<byte>, closing: seq<byte>)
    requires at <= next <= |b| && b[at..next] == content + closing
    ensures Holds(b, at, content)
  {
    assert b[at..at + |content|] == b[at..next][..|content|] == content;
  }

  /** Every accepted body gives one to sixteen named parts, framed by its delimiters: no content is cut short of
      the next delimiter or runs over one. */
  lemma AcceptedIsSound(b: seq<byte>, boundary: seq<byte>) returns (cursors: seq<nat>)
    requires Parse(b, boundary).Ok?
    ensures var r, delimiter := Parse(b, boundary).value, DASHES + boundary;
            && 1 <= |r| <= 16 && Frames(b, delimiter, cursors, r)
            && forall p :: p in r ==> p.name != [] && p.filename != Some([]) && Lacks(p.content, delimiter)
  {
    hide Parse, Framed, IndexOf, Lacks, Holds;
    var r, delimiter := Parse(b, boundary).value, DASHES + boundary;
    AcceptedWhen(b, boundary, r);
    cursors :| Frames(b, delimiter, cursors, r);
    forall p | p in r ensures p.name != [] && p.filename != Some([]) && Lacks(p.content, delimiter) {
      var k :| 0 <= k < |r| && r[k] == p;
      FramedIsSound(b, delimiter, cursors[k], cursors[k + 1], p);
    }
  }

  // ----- A part that does not come back as it was -----

  lemma HeaderNames()
    ensures Folded(DISPOSITION) == DISPOSITION && Folded(TYPE) == TYPE
  {
  }

  lemma ShortPart()
    ensures var sp, p := Spelling(DISPOSITION, TYPE), Part([97], Some([]), None, []);
            |HeaderOf(sp, p)| <= 8192
  {
    FormBytes();
    FileBytes();
  }

  /** The part `a` with an empty filename reads as a part without one. */
  lemma EmptyFilename()
    ensures var sp, p := Spelling(DISPOSITION, TYPE), Part([97], Some([]), None, []);
            Parse(Print(sp, DASHES + [66], [p], []), [66]) == Ok([p.(filename := None)])
  {
    hide Parse, Print, HeaderOf, Folded, Holds;
    var sp, p := Spelling(DISPOSITION, TYPE), Part([97], Some([]), None, []);
    var delimiter := DASHES + [66];
    HeaderNames();
    ShortPart();
    NothingHeld(delimiter);
    assert AllPrintable(sp, delimiter, [p]);
    ParsePrint(sp, [66], [p], [], []);
    assert [] + Print(sp, delimiter, [p], []) == Print(sp, delimiter, [p], []);
    assert MeantAll([p]) == [p.(filename := None)];
  }

  lemma NothingHeld(pattern: seq<byte>)
    requires |pattern| > 0
    ensures Lacks([], pattern)
  {
  }
}
