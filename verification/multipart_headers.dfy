/** What a part's headers say, stated on the text itself: how it splits into lines, lines into fields, and a field into
    parameters, with white space, letter case and quotation marks. */
module MultipartHeaders {
  import opened Options
  import opened Buffers
  import opened Multipart

  // ----- Text -----

  predicate Blank(s: seq<byte>) {
    forall i :: 0 <= i < |s| ==> IsSpace(s[i])
  }

  /** Neither begins nor ends with white space. */
  predicate Tidy(s: seq<byte>) {
    |s| > 0 ==> !IsSpace(s[0]) && !IsSpace(s[|s| - 1])
  }

  predicate Free(s: seq<byte>, c: byte) {
    forall i :: 0 <= i < |s| ==> s[i] != c
  }

  /** t is s without the white space around it. */
  ghost predicate Trimmed(s: seq<byte>, t: seq<byte>) {
    Tidy(t) && exists before, after :: Blank(before) && Blank(after) && s == before + t + after
  }

  lemma {:induction false} TrimLeftIs(before: seq<byte>, rest: seq<byte>)
    requires Blank(before) && (|rest| > 0 ==> !IsSpace(rest[0]))
    ensures TrimLeft(before + rest) == rest
    decreases |before|
  {
    if |before| == 0 {
      assert before + rest == rest;
    } else {
      assert (before + rest)[1..] == before[1..] + rest;
      TrimLeftIs(before[1..], rest);
    }
  }

  lemma {:induction false} TrimRightIs(rest: seq<byte>, after: seq<byte>)
    requires Blank(after) && (|rest| > 0 ==> !IsSpace(rest[|rest| - 1]))
    ensures TrimRight(rest + after) == rest
    decreases |after|
  {
    var s := rest + after;
    if |after| == 0 {
      assert s == rest;
    } else {
      assert s[|s| - 1] == after[|after| - 1];
      assert s[..|s| - 1] == rest + after[..|after| - 1];
      TrimRightIs(rest, after[..|after| - 1]);
    }
  }

  lemma {:induction false} TrimLeftSplits(s: seq<byte>) returns (before: seq<byte>)
    ensures Blank(before) && s == before + TrimLeft(s) && (|TrimLeft(s)| > 0 ==> !IsSpace(TrimLeft(s)[0]))
    decreases |s|
  {
    if |s| > 0 && IsSpace(s[0]) {
      before := TrimLeftSplits(s[1..]);
      before := [s[0]] + before;
    } else {
      before := [];
    }
  }

  lemma {:induction false} TrimRightSplits(s: seq<byte>) returns (after: seq<byte>)
    ensures Blank(after) && s == TrimRight(s) + after
    ensures |TrimRight(s)| > 0 ==> !IsSpace(TrimRight(s)[|TrimRight(s)| - 1]) && TrimRight(s)[0] == s[0]
    decreases |s|
  {
    if |s| > 0 && IsSpace(s[|s| - 1]) {
      after := TrimRightSplits(s[..|s| - 1]);
      after := after + [s[|s| - 1]];
    } else {
      after := [];
    }
  }

  lemma {:induction false} BlankTrims(s: seq<byte>)
    requires Blank(s)
    ensures TrimLeft(s) == []
    decreases |s|
  {
    if |s| > 0 { BlankTrims(s[1..]); }
  }

  lemma TrimSplits(s: seq<byte>)
    ensures Trimmed(s, Trim(s))
  {
    hide Blank, TrimLeft, TrimRight, IsSpace;
    var before := TrimLeftSplits(s);
    var after := TrimRightSplits(TrimLeft(s));
    assert s == before + Trim(s) + after;
  }

  lemma TrimAround(before: seq<byte>, t: seq<byte>, after: seq<byte>)
    requires Blank(before) && Blank(after) && Tidy(t)
    ensures Trim(before + t + after) == t
  {
    hide TrimLeft, TrimRight, IsSpace;
    if |t| == 0 {
      assert Blank(before + t + after);
      BlankTrims(before + t + after);
      TrimNothing();
    } else {
      assert before + t + after == before + (t + after) && (t + after)[0] == t[0];
      hide Blank;
      TrimLeftIs(before, t + after);
      TrimRightIs(t, after);
    }
  }

  lemma TrimNothing()
    ensures TrimRight([]) == []
  {
  }

  /** `trim` is taking off the white space around. */
  lemma TrimWhen(s: seq<byte>, t: seq<byte>)
    ensures Trim(s) == t <==> Trimmed(s, t)
  {
    hide Trim, Blank, Tidy;
    TrimSplits(s);
    if Trimmed(s, t) {
      var b, a :| Blank(b) && Blank(a) && s == b + t + a;
      TrimAround(b, t, a);
    }
  }

  // ----- Lines -----

  /** The lines, with a CRLF between each and the next. */
  function Lined(lines: seq<seq<byte>>): seq<byte>
    requires |lines| > 0
  {
    if |lines| == 1 then lines[0] else lines[0] + [13, 10] + Lined(lines[1..])
  }

  /** No CRLF in it. */
  predicate OneLine(s: seq<byte>) {
    forall i :: 0 <= i < |s| - 1 ==> !(s[i] == 13 && s[i + 1] == 10)
  }

  /** The block is these lines. */
  ghost predicate Splits(block: seq<byte>, lines: seq<seq<byte>>) {
    |lines| > 0 && Lined(lines) == block && forall i :: 0 <= i < |lines| ==> OneLine(lines[i])
  }

  lemma FirstBreak(line: seq<byte>, rest: seq<byte>)
    requires OneLine(line)
    ensures IndexOf(line + [13, 10] + rest, CRLF, 0) == Some(|line|)
  {
    var s := line + [13, 10] + rest;
    assert s[|line|..|line| + 2] == CRLF;
    forall i | 0 <= i < |line| ensures !Holds(s, i, CRLF) {
      assert s[i] == line[i] && (i + 1 < |line| ==> s[i + 1] == line[i + 1]) && (i + 1 == |line| ==> s[i + 1] == 13);
      assert s[i..i + 2] == [s[i], s[i + 1]];
    }
    IndexOfIs(s, CRLF, 0, |line|);
  }

  lemma BreakAt(s: seq<byte>, i: nat)
    ensures Holds(s, i, CRLF) <==> i + 1 < |s| && s[i] == 13 && s[i + 1] == 10
  {
    if i + 1 < |s| { assert s[i..i + 2] == [s[i], s[i + 1]]; }
  }

  lemma NoBreakIn(line: seq<byte>)
    ensures OneLine(line) <==> IndexOf(line, CRLF, 0).None?
  {
    hide Holds, IndexOf;
    forall i: nat ensures Holds(line, i, CRLF) <==> i + 1 < |line| && line[i] == 13 && line[i + 1] == 10 { BreakAt(line, i); }
    if IndexOf(line, CRLF, 0).Some? {
      var k := IndexOf(line, CRLF, 0).value;
      BreakAt(line, k);
    } else {
      forall i | 0 <= i < |line| - 1 ensures !(line[i] == 13 && line[i + 1] == 10) { assert !Holds(line, i, CRLF); }
    }
  }

  lemma {:induction false} LinesAre(lines: seq<seq<byte>>)
    requires |lines| > 0 && forall i :: 0 <= i < |lines| ==> OneLine(lines[i])
    ensures Lines(Lined(lines)) == lines
    decreases |lines|
  {
    hide OneLine, IndexOf;
    if |lines| == 1 {
      NoBreakIn(lines[0]);
    } else {
      var rest := Lined(lines[1..]);
      FirstBreak(lines[0], rest);
      var s := lines[0] + [13, 10] + rest;
      assert s[..|lines[0]|] == lines[0] && s[|lines[0]| + 2..] == rest;
      LinesAre(lines[1..]);
      assert lines == [lines[0]] + lines[1..];
    }
  }

  lemma BeforeBreak(s: seq<byte>, k: nat)
    requires IndexOf(s, CRLF, 0) == Some(k)
    ensures k + 2 <= |s| && OneLine(s[..k]) && s == s[..k] + [13, 10] + s[k + 2..]
  {
    hide Holds, IndexOf;
    BreakAt(s, k);
    BreakParts(s, k);
    forall i | 0 <= i < k - 1 ensures !(s[..k][i] == 13 && s[..k][i + 1] == 10) {
      assert !Holds(s, i, CRLF);
      BreakAt(s, i);
    }
  }

  lemma BreakParts(s: seq<byte>, k: nat)
    requires k + 1 < |s| && s[k] == 13 && s[k + 1] == 10
    ensures s == s[..k] + [13, 10] + s[k + 2..]
  {
  }

  lemma {:induction false} LinesSplit(block: seq<byte>)
    ensures Splits(block, Lines(block))
    decreases |block|
  {
    hide OneLine, IndexOf;
    var end := IndexOf(block, CRLF, 0);
    if end.None? {
      NoBreakIn(block);
    } else {
      BeforeBreak(block, end.value);
      LinesSplit(block[end.value + 2..]);
      var rest := Lines(block[end.value + 2..]);
      assert Lines(block)[1..] == rest;
    }
  }

  /** Splitting is undone by putting the breaks back. */
  lemma LinesWhen(block: seq<byte>, lines: seq<seq<byte>>)
    ensures Lines(block) == lines <==> Splits(block, lines)
  {
    LinesSplit(block);
    hide Lined, OneLine, Lines;
    if Splits(block, lines) { LinesAre(lines); }
  }

  // ----- Fields -----

  /** The line is a field of this name, in any case, and this value, each with white space around it. */
  ghost predicate Field(line: seq<byte>, key: seq<byte>, value: seq<byte>) {
    exists left, right :: FieldParts(line, left, right) && Named(left, key) && Trimmed(right, value)
  }

  predicate FieldParts(line: seq<byte>, left: seq<byte>, right: seq<byte>) {
    line == left + [58] + right && Free(left, 58)
  }

  ghost predicate Named(left: seq<byte>, key: seq<byte>) {
    exists name :: Trimmed(left, name) && Folded(name) == key
  }

  /** What the parser makes of a line. */
  function FieldOf(line: seq<byte>): Option<(seq<byte>, seq<byte>)> {
    var colon := IndexOf(line, COLON, 0);
    if colon.None? then None else Some((Folded(Trim(line[..colon.value])), Trim(line[colon.value + 1..])))
  }

  lemma ByteAt(s: seq<byte>, c: byte, i: nat)
    ensures Holds(s, i, [c]) <==> i < |s| && s[i] == c
  {
    if i < |s| { assert s[i..i + 1] == [s[i]]; }
  }

  lemma FirstIs(s: seq<byte>, c: byte, k: nat)
    ensures IndexOf(s, [c], 0) == Some(k) <==> k < |s| && s[k] == c && Free(s[..k], c)
  {
    hide Holds, IndexOf;
    ByteAt(s, c, k);
    if k < |s| && s[k] == c && Free(s[..k], c) {
      forall i | 0 <= i < k ensures !Holds(s, i, [c]) {
        assert s[i] == s[..k][i];
        ByteAt(s, c, i);
      }
      IndexOfIs(s, [c], 0, k);
    }
    if IndexOf(s, [c], 0) == Some(k) {
      forall i | 0 <= i < k ensures s[..k][i] != c {
        ByteAt(s, c, i);
      }
    }
  }

  lemma PartsAre(line: seq<byte>, left: seq<byte>, right: seq<byte>)
    ensures FieldParts(line, left, right) <==>
      IndexOf(line, COLON, 0) == Some(|left|) && left == line[..|left|] && right == line[|left| + 1..]
  {
    FirstIs(line, 58, |left|);
    if FieldParts(line, left, right) {
      assert line[..|left|] == left && line[|left| + 1..] == right;
    }
    if IndexOf(line, COLON, 0) == Some(|left|) && left == line[..|left|] && right == line[|left| + 1..] {
      assert line == left + [58] + right;
    }
  }

  lemma NamedWhen(left: seq<byte>, key: seq<byte>)
    ensures Named(left, key) <==> Folded(Trim(left)) == key
  {
    hide Trimmed, Trim, Folded;
    TrimWhen(left, Trim(left));
    if name :| Trimmed(left, name) && Folded(name) == key { TrimWhen(left, name); }
  }

  lemma FieldWhen(line: seq<byte>, key: seq<byte>, value: seq<byte>)
    ensures Field(line, key, value) <==> FieldOf(line) == Some((key, value))
  {
    hide FieldParts, Named, Trimmed, Trim, Folded, IndexOf;
    if left, right :| FieldParts(line, left, right) && Named(left, key) && Trimmed(right, value) {
      PartsAre(line, left, right);
      NamedWhen(left, key);
      TrimWhen(right, value);
    }
    if FieldOf(line) == Some((key, value)) {
      var k := IndexOf(line, COLON, 0).value;
      FirstIs(line, 58, k);
      var left, right := line[..k], line[k + 1..];
      PartsAre(line, left, right);
      NamedWhen(left, key);
      TrimWhen(right, value);
    }
  }

  /** The value of the last field of this name, or what there was without one. */
  ghost predicate LastField(lines: seq<seq<byte>>, key: seq<byte>, before: Option<seq<byte>>, value: Option<seq<byte>>) {
    || (value == before && forall i, v :: 0 <= i < |lines| ==> !Field(lines[i], key, v))
    || (value.Some? && exists i :: LastAt(lines, key, i, value.value))
  }

  ghost predicate LastAt(lines: seq<seq<byte>>, key: seq<byte>, i: nat, value: seq<byte>) {
    i < |lines| && Field(lines[i], key, value) && forall j, v :: i < j < |lines| ==> !Field(lines[j], key, v)
  }

  /** No transfer encoding but binary. */
  ghost predicate Plain(lines: seq<seq<byte>>) {
    forall i, v :: 0 <= i < |lines| && Field(lines[i], Ascii("content-transfer-encoding"), v) ==> Folded(v) == Ascii("binary")
  }

  lemma LastFieldStep(lines: seq<seq<byte>>, key: seq<byte>, before: Option<seq<byte>>, value: Option<seq<byte>>)
    requires |lines| > 0
    ensures var f := FieldOf(lines[0]);
      LastField(lines, key, before, value)
      <==> LastField(lines[1..], key, if f.Some? && f.value.0 == key then Some(f.value.1) else before, value)
  {
    hide Field, FieldOf;
    var rest, f := lines[1..], FieldOf(lines[0]);
    var next := if f.Some? && f.value.0 == key then Some(f.value.1) else before;
    forall v ensures Field(lines[0], key, v) <==> f == Some((key, v)) { FieldWhen(lines[0], key, v); }
    if f.Some? { FieldWhen(lines[0], f.value.0, f.value.1); }
    if LastField(lines, key, before, value) {
      if value.Some? && exists i: nat :: LastAt(lines, key, i, value.value) {
        var i: nat :| LastAt(lines, key, i, value.value);
        LastAtStep(lines, key, i, value.value);
        if i == 0 { assert next == value && forall j, v :: 0 <= j < |rest| ==> !Field(rest[j], key, v); }
      } else {
        forall j, v | 0 <= j < |rest| ensures !Field(rest[j], key, v) { assert rest[j] == lines[j + 1]; }
      }
    }
    if LastField(rest, key, next, value) {
      if value.Some? && exists i: nat :: LastAt(rest, key, i, value.value) {
        var i: nat :| LastAt(rest, key, i, value.value);
        LastAtStep(lines, key, i + 1, value.value);
      } else {
        forall j, v | 1 <= j < |lines| ensures !Field(lines[j], key, v) { assert lines[j] == rest[j - 1]; }
        if f.Some? && f.value.0 == key { assert LastAt(lines, key, 0, f.value.1); }
      }
    }
  }

  lemma LastAtStep(lines: seq<seq<byte>>, key: seq<byte>, i: nat, value: seq<byte>)
    requires i < |lines|
    ensures i > 0 ==> (LastAt(lines, key, i, value) <==> LastAt(lines[1..], key, i - 1, value))
    ensures i == 0 && LastAt(lines, key, 0, value) ==> forall j, v :: 0 <= j < |lines[1..]| ==> !Field(lines[1..][j], key, v)
  {
    hide Field;
    var rest := lines[1..];
    assert forall j :: 0 <= j < |rest| ==> rest[j] == lines[j + 1];
    assert forall j :: 1 <= j < |lines| ==> lines[j] == rest[j - 1];
  }

  lemma PlainStep(lines: seq<seq<byte>>)
    requires |lines| > 0
    ensures var f := FieldOf(lines[0]);
      Plain(lines) <==> !(f.Some? && f.value.0 == ENCODING && Folded(f.value.1) != BINARY) && Plain(lines[1..])
  {
    hide Field, FieldOf, Folded;
    var rest, f := lines[1..], FieldOf(lines[0]);
    forall v ensures Field(lines[0], ENCODING, v) <==> f == Some((ENCODING, v)) { FieldWhen(lines[0], ENCODING, v); }
    assert forall i :: 0 <= i < |rest| ==> rest[i] == lines[i + 1];
    assert forall i :: 1 <= i < |lines| ==> lines[i] == rest[i - 1];
  }

  lemma LineStep(line: seq<byte>, so: Headers)
    ensures var f := FieldOf(line);
      HeaderLine(line, so) ==
        if f.None? then Ok(so)
        else if f.value.0 == DISPOSITION then Ok(so.(disposition := Some(f.value.1)))
        else if f.value.0 == TYPE then Ok(so.(contentType := Some(f.value.1)))
        else if f.value.0 == ENCODING && Folded(f.value.1) != BINARY then Failed(TransferEncoding)
        else Ok(so)
  {
  }

  lemma KeysDiffer()
    ensures DISPOSITION == Ascii("content-disposition") && TYPE == Ascii("content-type")
    ensures ENCODING == Ascii("content-transfer-encoding") && BINARY == Ascii("binary")
    ensures DISPOSITION != TYPE && DISPOSITION != ENCODING && TYPE != ENCODING
  {
    assert |DISPOSITION| == 19 && |TYPE| == 12 && |ENCODING| == 25;
  }

  /** The header loop accepts exactly lines without a foreign encoding, and takes the last field of each name. */
  lemma {:induction false} HeadersWhen(lines: seq<seq<byte>>, so: Headers, h: Headers)
    ensures HeaderLines(lines, so) == Ok(h) <==>
      && Plain(lines)
      && LastField(lines, Ascii("content-disposition"), so.disposition, h.disposition)
      && LastField(lines, Ascii("content-type"), so.contentType, h.contentType)
    decreases |lines|
  {
    KeysDiffer();
    if |lines| > 0 {
      hide LastField, Plain, FieldOf, HeaderLine, Folded, Field;
      LineStep(lines[0], so);
      PlainStep(lines);
      LastFieldStep(lines, DISPOSITION, so.disposition, h.disposition);
      LastFieldStep(lines, TYPE, so.contentType, h.contentType);
      var next := HeaderLine(lines[0], so);
      if next.Ok? { HeadersWhen(lines[1..], next.value, h); }
    }
  }

  // ----- Parameters -----

  /** After the equals sign: what stands between quotes, if there is a closing one, and otherwise all up to the next
      semicolon; without white space around. */
  ghost predicate Means(rest: seq<byte>, value: seq<byte>) {
    if exists inner, after :: Quoted(rest, inner, after)
    then exists inner, after :: Quoted(rest, inner, after) && Trimmed(inner, value)
    else exists inner, after :: Bare(rest, inner, after) && Trimmed(inner, value)
  }

  predicate Quoted(rest: seq<byte>, inner: seq<byte>, after: seq<byte>) {
    rest == [34] + inner + [34] + after && Free(inner, 34)
  }

  predicate Bare(rest: seq<byte>, inner: seq<byte>, after: seq<byte>) {
    rest == inner + after && Free(inner, 59) && (|after| > 0 ==> after[0] == 59)
  }

  datatype Pieces = Pieces(indent: seq<byte>, name: seq<byte>, gap: seq<byte>, lead: seq<byte>, rest: seq<byte>)

  /** Blanks, a name, blanks, an equals sign, blanks, the rest. */
  predicate Spells(text: seq<byte>, p: Pieces) {
    && text == p.indent + (p.name + (p.gap + ([61] + (p.lead + p.rest))))
    && Blank(p.indent) && Blank(p.gap) && Blank(p.lead) && (|p.rest| > 0 ==> !IsSpace(p.rest[0]))
  }

  /** At q the text is a parameter of this name, in any case, with this value. */
  ghost predicate ParameterIs(h: seq<byte>, q: nat, key: seq<byte>, value: seq<byte>) {
    q <= |h| && exists p :: Spells(h[q..], p) && Folded(p.name) == key && Means(p.rest, value)
  }

  /** A parameter of this name begins here: at the start of the text or after a semicolon. */
  ghost predicate Begins(h: seq<byte>, q: nat, key: seq<byte>, value: seq<byte>) {
    (q == 0 || (q <= |h| && h[q - 1] == 59)) && ParameterIs(h, q, key, value)
  }

  ghost predicate FirstParameter(h: seq<byte>, key: seq<byte>, value: seq<byte>) {
    exists q: nat :: Begins(h, q, key, value) && forall p: nat, v :: p < q ==> !Begins(h, p, key, v)
  }

  ghost predicate NoParameter(h: seq<byte>, key: seq<byte>) {
    forall p: nat, v :: !Begins(h, p, key, v)
  }

  lemma {:induction false} SkipSpaceIs(h: seq<byte>, q: nat, r: nat)
    requires q <= r <= |h| && Blank(h[q..r]) && (r < |h| ==> !IsSpace(h[r]))
    ensures SkipSpace(h, q) == r
    decreases r - q
  {
    if q < r {
      assert h[q] == h[q..r][0] && h[q + 1..r] == h[q..r][1..];
      SkipSpaceIs(h, q + 1, r);
    }
  }

  lemma {:induction false} SkipSpaceSkips(h: seq<byte>, q: nat)
    requires q <= |h|
    ensures var r := SkipSpace(h, q); Blank(h[q..r]) && (r < |h| ==> !IsSpace(h[r]))
    decreases |h| - q
  {
    if q < |h| && IsSpace(h[q]) {
      SkipSpaceSkips(h, q + 1);
      assert h[q..SkipSpace(h, q)] == [h[q]] + h[q + 1..SkipSpace(h, q)];
    }
  }

  lemma {:induction false} FirstFrom(h: seq<byte>, c: byte, v: nat, k: nat)
    requires v <= |h|
    ensures IndexOf(h, [c], v) == Some(v + k) <==> k < |h| - v && h[v + k] == c && Free(h[v..v + k], c)
  {
    hide Holds, IndexOf;
    ByteAt(h, c, v + k);
    if k < |h| - v && h[v + k] == c && Free(h[v..v + k], c) {
      forall i | v <= i < v + k ensures !Holds(h, i, [c]) {
        assert h[i] == h[v..v + k][i - v];
        ByteAt(h, c, i);
      }
      IndexOfIs(h, [c], v, v + k);
    }
    if IndexOf(h, [c], v) == Some(v + k) {
      var part := h[v..v + k];
      forall i | 0 <= i < |part| ensures part[i] != c { ByteAt(h, c, v + i); }
    }
  }

  lemma NoneFrom(h: seq<byte>, c: byte, v: nat)
    requires v <= |h|
    ensures IndexOf(h, [c], v).None? <==> Free(h[v..], c)
  {
    hide Holds, IndexOf;
    if IndexOf(h, [c], v).None? {
      forall i | 0 <= i < |h| - v ensures h[v..][i] != c { ByteAt(h, c, v + i); }
    } else {
      var k := IndexOf(h, [c], v).value;
      ByteAt(h, c, k);
      assert h[v..][k - v] == h[k];
    }
  }

  lemma QuotedWhen(h: seq<byte>, v: nat, inner: seq<byte>, after: seq<byte>)
    requires v <= |h|
    ensures Quoted(h[v..], inner, after) <==>
      v < |h| && h[v] == 34 && IndexOf(h, QUOTE, v + 1) == Some(v + 1 + |inner|)
      && inner == h[v + 1..v + 1 + |inner|] && after == h[v + 2 + |inner|..]
  {
    hide IndexOf;
    var t := h[v..];
    if v < |h| { FirstFrom(h, 34, v + 1, |inner|); }
    if Quoted(t, inner, after) {
      assert t[0] == 34 && t[1..1 + |inner|] == inner && t[1 + |inner|] == 34 && t[2 + |inner|..] == after;
      assert h[v + 1..v + 1 + |inner|] == t[1..1 + |inner|] && h[v + 1 + |inner|] == t[1 + |inner|];
      assert h[v + 2 + |inner|..] == t[2 + |inner|..];
    }
    if v < |h| && |inner| + 2 <= |t| { assert t == [h[v]] + t[1..1 + |inner|] + [t[1 + |inner|]] + t[2 + |inner|..]; }
  }

  lemma BareWhen(h: seq<byte>, v: nat, inner: seq<byte>, after: seq<byte>)
    requires v <= |h|
    ensures Bare(h[v..], inner, after) <==>
      && inner == (if IndexOf(h, SEMICOLON, v).Some? then h[v..IndexOf(h, SEMICOLON, v).value] else h[v..])
      && after == h[v..][|inner|..]
  {
    hide IndexOf;
    var t := h[v..];
    NoneFrom(h, 59, v);
    FirstFrom(h, 59, v, |inner|);
    if IndexOf(h, SEMICOLON, v).Some? { FirstFrom(h, 59, v, IndexOf(h, SEMICOLON, v).value - v); }
    if Bare(t, inner, after) {
      assert t[..|inner|] == inner && t[|inner|..] == after && h[v..v + |inner|] == t[..|inner|];
      if |after| > 0 {
        assert h[v + |inner|] == t[|inner|] == 59;
      } else {
        assert t == inner;
      }
    }
  }

  lemma OnlyQuoted(rest: seq<byte>, inner: seq<byte>, after: seq<byte>, value: seq<byte>)
    requires Quoted(rest, inner, after) && forall i, a :: Quoted(rest, i, a) ==> i == inner
    ensures Means(rest, value) <==> Trimmed(inner, value)
  {
    hide Quoted, Bare, Trimmed;
  }

  lemma OnlyBare(rest: seq<byte>, inner: seq<byte>, after: seq<byte>, value: seq<byte>)
    requires Bare(rest, inner, after) && (forall i, a :: Bare(rest, i, a) ==> i == inner) && forall i, a :: !Quoted(rest, i, a)
    ensures Means(rest, value) <==> Trimmed(inner, value)
  {
    hide Quoted, Bare, Trimmed;
  }

  lemma QuotedValue(h: seq<byte>, v: nat)
    requires v < |h| && h[v] == 34 && IndexOf(h, QUOTE, v + 1).Some?
    ensures var close := IndexOf(h, QUOTE, v + 1).value;
      close < |h| && Quoted(h[v..], ValueAt(h, v), h[close + 1..])
  {
    hide IndexOf, Quoted;
    var close := IndexOf(h, QUOTE, v + 1).value;
    FirstFrom(h, 34, v + 1, close - v - 1);
    QuotedWhen(h, v, h[v + 1..close], h[close + 1..]);
  }

  lemma QuotedOnly(h: seq<byte>, v: nat, inner: seq<byte>, after: seq<byte>)
    requires v <= |h| && Quoted(h[v..], inner, after)
    ensures inner == ValueAt(h, v)
  {
    QuotedWhen(h, v, inner, after);
    hide IndexOf, Quoted;
  }

  lemma MeansQuoted(h: seq<byte>, v: nat, value: seq<byte>)
    requires v < |h| && h[v] == 34 && IndexOf(h, QUOTE, v + 1).Some?
    ensures Means(h[v..], value) <==> Trimmed(ValueAt(h, v), value)
  {
    hide *;
    QuotedValue(h, v);
    forall i, a | Quoted(h[v..], i, a) ensures i == ValueAt(h, v) {
      QuotedOnly(h, v, i, a);
    }
    OnlyQuoted(h[v..], ValueAt(h, v), h[IndexOf(h, QUOTE, v + 1).value + 1..], value);
  }

  lemma MeansBare(h: seq<byte>, v: nat, value: seq<byte>)
    requires v <= |h| && !(v < |h| && h[v] == 34 && IndexOf(h, QUOTE, v + 1).Some?)
    ensures Means(h[v..], value) <==> Trimmed(ValueAt(h, v), value)
  {
    hide IndexOf, Trimmed, Quoted, Bare, Means;
    var inner := ValueAt(h, v);
    forall i, a ensures !Quoted(h[v..], i, a) {
      QuotedWhen(h, v, i, a);
    }
    BareInner(h, v, inner);
    BareWhen(h, v, inner, h[v..][|inner|..]);
    forall i, a ensures Bare(h[v..], i, a) ==> i == inner {
      BareWhen(h, v, i, a);
    }
    OnlyBare(h[v..], inner, h[v..][|inner|..], value);
  }

  lemma MeansWhen(h: seq<byte>, v: nat, value: seq<byte>)
    requires v <= |h|
    ensures Means(h[v..], value) <==> Trim(ValueAt(h, v)) == value
  {
    hide Means, Trim, Trimmed, IndexOf, ValueAt;
    TrimWhen(ValueAt(h, v), value);
    if v < |h| && h[v] == 34 && IndexOf(h, QUOTE, v + 1).Some? { MeansQuoted(h, v, value); } else { MeansBare(h, v, value); }
  }

  lemma BareInner(h: seq<byte>, v: nat, inner: seq<byte>)
    requires v <= |h| && inner == (if IndexOf(h, SEMICOLON, v).Some? then h[v..IndexOf(h, SEMICOLON, v).value] else h[v..])
    ensures |inner| <= |h[v..]|
  {
    hide IndexOf;
  }

  lemma Cut(h: seq<byte>, q: nat, a: seq<byte>, rest: seq<byte>)
    requires q <= |h| && h[q..] == a + rest
    ensures q + |a| <= |h| && h[q..q + |a|] == a && h[q + |a|..] == rest
  {
    assert h[q..q + |a|] == h[q..][..|a|] && h[q + |a|..] == h[q..][|a|..];
  }

  lemma SkipsTo(h: seq<byte>, q: nat, a: seq<byte>, rest: seq<byte>)
    requires q <= |h| && h[q..] == a + rest && Blank(a) && (|rest| > 0 ==> !IsSpace(rest[0]))
    ensures q + |a| <= |h| && SkipSpace(h, q) == q + |a| && h[q + |a|..] == rest
  {
    Cut(h, q, a, rest);
    var r := q + |a|;
    assert r < |h| ==> h[r] == h[r..][0];
    SkipSpaceIs(h, q, r);
  }

  lemma Rejoined(h: seq<byte>, q: nat, k: nat, e: nat, g: nat, v: nat)
    requires q <= k <= e <= g < v <= |h| && h[g] == 61
    ensures h[q..] == h[q..k] + (h[k..e] + (h[e..g] + ([61] + (h[g + 1..v] + h[v..]))))
  {
    assert h[g..] == [61] + h[g + 1..] && h[g + 1..] == h[g + 1..v] + h[v..];
    assert h[e..] == h[e..g] + h[g..] && h[k..] == h[k..e] + h[e..] && h[q..] == h[q..k] + h[k..];
  }

  predicate Key(key: seq<byte>) {
    |key| > 0 && !IsSpace(key[0])
  }

  lemma FoldedName(name: seq<byte>, key: seq<byte>)
    requires Folded(name) == key && Key(key)
    ensures 0 < |name| == |key| && !IsSpace(name[0])
  {
    assert Folded(name)[0] == Fold(name[0]);
  }

  lemma NameSkipped(h: seq<byte>, q: nat, indent: seq<byte>, name: seq<byte>, rest: seq<byte>)
    requires q <= |h| && h[q..] == indent + (name + rest) && Blank(indent) && |name| > 0 && !IsSpace(name[0])
    ensures var k := q + |indent|; var e := k + |name|;
      e <= |h| && SkipSpace(h, q) == k && h[k..e] == name && h[e..] == rest
  {
    hide *;
    FirstOf(name, rest);
    SkipsTo(h, q, indent, name + rest);
    Cut(h, q + |indent|, name, rest);
  }

  lemma EqualsSkipped(h: seq<byte>, e: nat, gap: seq<byte>, lead: seq<byte>, rest: seq<byte>)
    requires e <= |h| && h[e..] == gap + ([61] + (lead + rest)) && Blank(gap) && Blank(lead)
    requires |rest| > 0 ==> !IsSpace(rest[0])
    ensures var g := e + |gap|; var v := g + 1 + |lead|;
      v <= |h| && SkipSpace(h, e) == g && h[g] == EQUALS && SkipSpace(h, g + 1) == v && h[v..] == rest
  {
    hide *;
    var g := e + |gap|;
    EqualsFirst(lead + rest);
    SkipsTo(h, e, gap, [61] + (lead + rest));
    Cut(h, g, [61], lead + rest);
    EqualsAt(h, g);
    SkipsTo(h, g + 1, lead, rest);
  }

  lemma SpellsParts(text: seq<byte>, p: Pieces)
    requires Spells(text, p)
    ensures text == p.indent + (p.name + (p.gap + ([61] + (p.lead + p.rest))))
    ensures Blank(p.indent) && Blank(p.gap) && Blank(p.lead) && (|p.rest| > 0 ==> !IsSpace(p.rest[0]))
  {
  }

  lemma FirstOf(a: seq<byte>, b: seq<byte>)
    requires |a| > 0
    ensures (a + b)[0] == a[0]
  {
  }

  lemma EqualsFirst(d: seq<byte>)
    ensures ([61] + d)[0] == 61 && !IsSpace(61)
  {
  }

  lemma EqualsAt(h: seq<byte>, g: nat)
    requires g + 1 <= |h| && h[g..g + 1] == [61]
    ensures h[g] == 61 == EQUALS
  {
    assert h[g] == h[g..g + 1][0];
  }

  lemma ParameterSteps(h: seq<byte>, key: seq<byte>, q: nat, k: nat, e: nat, g: nat, v: nat)
    requires q <= |h| && SkipSpace(h, q) == k && e == k + |key| && e <= |h| && Folded(h[k..e]) == key
    requires SkipSpace(h, e) == g < |h| && h[g] == EQUALS && SkipSpace(h, g + 1) == v
    ensures v <= |h| && ParameterAt(h, key, q) == Some(Trim(ValueAt(h, v)))
  {
    hide Trim, ValueAt, SkipSpace, Folded;
  }

  lemma ParameterSpelled(h: seq<byte>, q: nat, key: seq<byte>, value: seq<byte>, p: Pieces)
    requires Key(key) && q <= |h| && Spells(h[q..], p) && Folded(p.name) == key && Means(p.rest, value)
    ensures ParameterAt(h, key, q) == Some(value)
  {
    hide *;
    FoldedName(p.name, key);
    SpellsParts(h[q..], p);
    var k := q + |p.indent|;
    var e := k + |p.name|;
    var g := e + |p.gap|;
    var v := g + 1 + |p.lead|;
    NameSkipped(h, q, p.indent, p.name, p.gap + ([61] + (p.lead + p.rest)));
    EqualsSkipped(h, e, p.gap, p.lead, p.rest);
    ParameterSteps(h, key, q, k, e, g, v);
    MeansWhen(h, v, value);
  }

  /** The parser finds a parameter at a place exactly when one is spelled there. */
  lemma ParameterWhen(h: seq<byte>, q: nat, key: seq<byte>, value: seq<byte>)
    requires Key(key) && q <= |h|
    ensures ParameterIs(h, q, key, value) <==> ParameterAt(h, key, q) == Some(value)
  {
    hide IndexOf, Trim, ValueAt, Means, Folded, Spells;
    if p :| Spells(h[q..], p) && Folded(p.name) == key && Means(p.rest, value) {
      ParameterSpelled(h, q, key, value, p);
    }
    if ParameterAt(h, key, q) == Some(value) {
      var p := PiecesOf(h, q, key, value);
    }
  }

  lemma StepsOf(h: seq<byte>, q: nat, key: seq<byte>) returns (k: nat, e: nat, g: nat, v: nat)
    requires q <= |h| && ParameterAt(h, key, q).Some?
    ensures q <= k <= e <= g < v <= |h| && Folded(h[k..e]) == key && h[g] == 61
    ensures k == SkipSpace(h, q) && g == SkipSpace(h, e) && v == SkipSpace(h, g + 1)
    ensures ParameterAt(h, key, q) == Some(Trim(ValueAt(h, v)))
  {
    hide Trim, ValueAt, Folded;
    k := SkipSpace(h, q);
    e := k + |key|;
    g := SkipSpace(h, e);
    v := SkipSpace(h, g + 1);
  }

  lemma SpellsIf(text: seq<byte>, p: Pieces)
    requires text == p.indent + (p.name + (p.gap + ([61] + (p.lead + p.rest))))
    requires Blank(p.indent) && Blank(p.gap) && Blank(p.lead) && (|p.rest| > 0 ==> !IsSpace(p.rest[0]))
    ensures Spells(text, p)
  {
  }

  lemma PiecesOf(h: seq<byte>, q: nat, key: seq<byte>, value: seq<byte>) returns (p: Pieces)
    requires Key(key) && q <= |h| && ParameterAt(h, key, q) == Some(value)
    ensures Spells(h[q..], p) && Folded(p.name) == key && Means(p.rest, value)
  {
    hide *;
    var k, e, g, v := StepsOf(h, q, key);
    SkipSpaceSkips(h, q);
    SkipSpaceSkips(h, e);
    SkipSpaceSkips(h, g + 1);
    p := Pieces(h[q..k], h[k..e], h[e..g], h[g + 1..v], h[v..]);
    Rejoined(h, q, k, e, g, v);
    FirstOfRest(h, v);
    SpellsIf(h[q..], p);
    MeansWhen(h, v, value);
  }

  lemma FirstOfRest(h: seq<byte>, v: nat)
    requires v <= |h|
    ensures |h[v..]| > 0 ==> v < |h| && h[v..][0] == h[v]
  {
  }

  lemma BeginsWhen(h: seq<byte>, q: nat, key: seq<byte>, value: seq<byte>)
    requires Key(key)
    ensures Begins(h, q, key, value) <==> q <= |h| && StartsAt(h, q) && ParameterAt(h, key, q) == Some(value)
  {
    hide ParameterIs, ParameterAt;
    if q <= |h| { ParameterWhen(h, q, key, value); } else { assert !ParameterIs(h, q, key, value) by { BeyondEnd(h, q, key, value); } }
  }

  lemma BeyondEnd(h: seq<byte>, q: nat, key: seq<byte>, value: seq<byte>)
    requires q > |h|
    ensures !ParameterIs(h, q, key, value)
  {
  }

  lemma {:induction false} ParameterFromIs(h: seq<byte>, key: seq<byte>, q: nat, at: nat, value: seq<byte>)
    requires q <= at <= |h| && StartsAt(h, at) && ParameterAt(h, key, at) == Some(value)
    requires forall p :: q <= p < at ==> !(StartsAt(h, p) && ParameterAt(h, key, p).Some?)
    ensures ParameterFrom(h, key, q) == Some(value)
    decreases at - q
  {
    hide ParameterAt;
    if q < at { ParameterFromIs(h, key, q + 1, at, value); }
  }

  lemma {:induction false} ParameterFound(h: seq<byte>, key: seq<byte>, q: nat) returns (at: nat)
    requires q <= |h| && ParameterFrom(h, key, q).Some?
    ensures q <= at <= |h| && StartsAt(h, at) && ParameterAt(h, key, at) == ParameterFrom(h, key, q)
    ensures forall p :: q <= p < at ==> !(StartsAt(h, p) && ParameterAt(h, key, p).Some?)
    decreases |h| - q
  {
    hide ParameterAt;
    if StartsAt(h, q) && ParameterAt(h, key, q).Some? { at := q; } else { at := ParameterFound(h, key, q + 1); }
  }

  /** Searching for a parameter finds the first one spelled in the text. */
  lemma FirstParameterWhen(h: seq<byte>, key: seq<byte>, value: seq<byte>)
    requires Key(key)
    ensures FirstParameter(h, key, value) <==> Parameter(h, key) == Some(value)
  {
    hide Begins, ParameterAt, Key;
    forall q: nat, v ensures Begins(h, q, key, v) <==> q <= |h| && StartsAt(h, q) && ParameterAt(h, key, q) == Some(v) {
      BeginsWhen(h, q, key, v);
    }
    if q: nat :| Begins(h, q, key, value) && forall p: nat, v :: p < q ==> !Begins(h, p, key, v) {
      forall p | 0 <= p < q ensures !(StartsAt(h, p) && ParameterAt(h, key, p).Some?) {
        if ParameterAt(h, key, p).Some? { assert Begins(h, p, key, ParameterAt(h, key, p).value) <==> StartsAt(h, p); }
      }
      ParameterFromIs(h, key, 0, q, value);
    }
    if Parameter(h, key) == Some(value) {
      var at := ParameterFound(h, key, 0);
      assert Begins(h, at, key, value);
    }
  }

  lemma NoParameterWhen(h: seq<byte>, key: seq<byte>)
    requires Key(key)
    ensures NoParameter(h, key) <==> Parameter(h, key).None?
  {
    hide Begins, ParameterAt, Key;
    if Parameter(h, key).Some? {
      FirstParameterWhen(h, key, Parameter(h, key).value);
    }
    if p: nat, v :| Begins(h, p, key, v) {
      BeginsWhen(h, p, key, v);
      ParameterNone(h, key, 0, p);
    }
  }

  lemma {:induction false} ParameterNone(h: seq<byte>, key: seq<byte>, q: nat, p: nat)
    requires q <= p <= |h| && StartsAt(h, p) && ParameterAt(h, key, p).Some?
    ensures ParameterFrom(h, key, q).Some?
    decreases p - q
  {
    hide ParameterAt;
    if q < p { ParameterNone(h, key, q + 1, p); }
  }

  // ----- A part's headers -----

  /** The file name, if there is a parameter for one that is not empty. */
  ghost predicate FileNamed(disposition: seq<byte>, filename: Option<seq<byte>>) {
    if filename.Some? then filename.value != [] && FirstParameter(disposition, Ascii("filename"), filename.value)
    else NoParameter(disposition, Ascii("filename")) || FirstParameter(disposition, Ascii("filename"), [])
  }

  /** The lines, whose last content-disposition is this one, give this name, file name and content type. */
  ghost predicate LinesGive(lines: seq<seq<byte>>, disposition: seq<byte>, p: Part) {
    && Plain(lines)
    && LastField(lines, Ascii("content-disposition"), None, Some(disposition))
    && LastField(lines, Ascii("content-type"), None, p.contentType)
    && p.name != [] && FirstParameter(disposition, Ascii("name"), p.name) && FileNamed(disposition, p.filename)
  }

  ghost predicate Describes(block: seq<byte>, p: Part) {
    exists lines, disposition :: Splits(block, lines) && LinesGive(lines, disposition, p)
  }

  lemma Names()
    ensures NAME == Ascii("name") && FILENAME == Ascii("filename") && Key(NAME) && Key(FILENAME)
  {
  }

  lemma PartWhen(headers: Headers, p: Part)
    ensures PartOf(headers, p.content) == Ok(p) <==>
      && headers.disposition.Some? && headers.contentType == p.contentType
      && p.name != [] && FirstParameter(headers.disposition.value, Ascii("name"), p.name)
      && FileNamed(headers.disposition.value, p.filename)
  {
    hide Parameter, FirstParameter, NoParameter, Key, Trim;
    Names();
    if headers.disposition.Some? {
      var d := headers.disposition.value;
      FirstParameterWhen(d, NAME, p.name);
      NoParameterWhen(d, FILENAME);
      FirstParameterWhen(d, FILENAME, []);
      if p.filename.Some? { FirstParameterWhen(d, FILENAME, p.filename.value); }
    }
  }

  /** The parser gets this part from a header block exactly when the block describes it. */
  lemma DescribesWhen(block: seq<byte>, p: Part)
    ensures Describes(block, p) <==>
      var headers := HeaderLines(Lines(block), Headers(None, None));
      headers.Ok? && PartOf(headers.value, p.content) == Ok(p)
  {
    hide Splits, Plain, LastField, FirstParameter, FileNamed, HeaderLines, PartOf, Lines;
    var lines := Lines(block);
    LinesWhen(block, lines);
    if lines', d :| Splits(block, lines') && LinesGive(lines', d, p) {
      LinesWhen(block, lines');
      HeadersWhen(lines, Headers(None, None), Headers(Some(d), p.contentType));
      PartWhen(Headers(Some(d), p.contentType), p);
    }
    var headers := HeaderLines(lines, Headers(None, None));
    if headers.Ok? && PartOf(headers.value, p.content) == Ok(p) {
      HeadersWhen(lines, Headers(None, None), headers.value);
      PartWhen(headers.value, p);
      assert LinesGive(lines, headers.value.disposition.value, p);
    }
  }

  /** White space is blank, tab, line feed, vertical tab, form feed and carriage return; only ASCII capitals fold. */
  lemma TextBytes(b: byte)
    ensures IsSpace(b) <==> b in Ascii(" \t\n\r") || b == 11 || b == 12
    ensures Fold(b) == if 'A' as int <= b <= 'Z' as int then b - 'A' as int + 'a' as int else b
  {
    var s := Ascii(" \t\n\r");
    assert s == [32, 9, 10, 13];
  }
}
