/** Reading a skill zip: the end record, the directory, and every entry checked before its
    bytes are used. */
module ZipReader {
  import opened Options
  import opened Buffers
  import opened ZipFormat

  datatype Error =
    | NotZip | Zip64 | DirectoryOutside | TooManyEntries | DirectoryDamaged
    | Encrypted(name: seq<byte>) | UnknownMethod(name: seq<byte>) | FileTooLarge(name: seq<byte>)
    | TotalTooLarge | CompressedTooLarge
    | HeaderDamaged(name: seq<byte>) | PastEnd(name: seq<byte>) | Overlaps(name: seq<byte>)
    | NotInflated(name: seq<byte>) | WrongSize(name: seq<byte>) | WrongChecksum(name: seq<byte>) | NotText(name: seq<byte>)

  datatype Result<+T> = Ok(value: T) | Fail(error: Error)

  const MAX_ENTRIES := 256
  const FILE_BYTES := 0x4_0000
  const TOTAL_BYTES := 0x10_0000

  /** An entry that passed every check: where its bytes lie, the size it declares, and what
      they hold. */
  datatype Entry = Entry(name: seq<byte>, start: nat, end: nat, size: nat, data: seq<byte>, text: seq<byte>)

  // ----- Names -----

  /** What follows the last slash. */
  function LastSegment(name: seq<byte>): seq<byte> {
    if |name| == 0 || name[|name| - 1] == Slash() then []
    else LastSegment(name[..|name| - 1]) + [name[|name| - 1]]
  }

  function MacPrefix(): seq<byte> { Ascii("__MACOSX/") }
  function DsStore(): seq<byte> { Ascii(".DS_Store") }
  function SkillFile(): seq<byte> { Ascii("SKILL.md") }
  /** The one key that assigning text to on a plain object does not create. */
  function Proto(): seq<byte> { Ascii("__proto__") }

  predicate Skipped(name: seq<byte>) {
    || (|name| > 0 && name[|name| - 1] == Slash())
    || MacPrefix() <= name
    || LastSegment(name) == DsStore()
  }

  // ----- The specification of one entry -----

  function Total(entries: seq<Entry>): nat {
    if |entries| == 0 then 0 else Total(entries[..|entries| - 1]) + entries[|entries| - 1].size
  }

  function Compressed(entries: seq<Entry>): int {
    if |entries| == 0 then 0
    else Compressed(entries[..|entries| - 1]) + (entries[|entries| - 1].end - entries[|entries| - 1].start)
  }

  predicate Meets(e: Entry, start: nat, end: nat) {
    e.start < e.end && start < e.end && e.start < end
  }

  datatype Step = Passed(next: nat) | Taken(next: nat, entry: Entry)

  /** What a directory entry says, and where the next one begins. */
  datatype Header = Header(name: seq<byte>, flags: nat, zipMethod: nat, crc: nat, compressed: nat, size: nat, local: nat, next: nat)

  function HeaderAt(lib: Library, buf: seq<byte>, at: nat): Header
    requires at + 46 <= |buf|
  {
    var nameLength := Get16(buf, at + 28);
    Header(
      lib.Name(Slice(buf, at + 46, at + 46 + nameLength)),
      Get16(buf, at + 8), Get16(buf, at + 10), Get32(buf, at + 16), Get32(buf, at + 20), Get32(buf, at + 24), Get32(buf, at + 42),
      at + 46 + nameLength + Get16(buf, at + 30) + Get16(buf, at + 32))
  }

  /** The bytes of an entry from start to end, inflated if need be, held against its header. */
  function Contents(lib: Library, h: Header, stored: seq<byte>, start: nat): Result<Entry> {
    var data := if h.zipMethod == 0 then Some(stored) else lib.inflate(stored, h.size + 1);
    if data.None? then Fail(NotInflated(h.name))
    else if |data.value| != h.size then Fail(WrongSize(h.name))
    else if lib.Crc(data.value) != h.crc then Fail(WrongChecksum(h.name))
    else
      var text := lib.Text(data.value);
      if text.None? then Fail(NotText(h.name))
      else Ok(Entry(h.name, start, start + h.compressed, h.size, data.value, text.value))
  }

  /** The entry a header announces, given the entries taken before it. */
  function Announced(lib: Library, buf: seq<byte>, h: Header, entries: seq<Entry>): Result<Entry> {
    if h.flags % 2 != 0 then Fail(Encrypted(h.name))
    else if h.zipMethod != 0 && h.zipMethod != 8 then Fail(UnknownMethod(h.name))
    else if h.size > FILE_BYTES then Fail(FileTooLarge(h.name))
    else if Total(entries) + h.size > TOTAL_BYTES then Fail(TotalTooLarge)
    else if Compressed(entries) + h.compressed > TOTAL_BYTES then Fail(CompressedTooLarge)
    else if h.local + 30 > |buf| || Get32(buf, h.local) != LOCAL then Fail(HeaderDamaged(h.name))
    else
      var start := h.local + 30 + Get16(buf, h.local + 26) + Get16(buf, h.local + 28);
      var end := start + h.compressed;
      if end > |buf| then Fail(PastEnd(h.name))
      else if h.compressed > 0 && exists i :: 0 <= i < |entries| && Meets(entries[i], start, end) then Fail(Overlaps(h.name))
      else Contents(lib, h, buf[start..end], start)
  }

  /** The directory entry at `at`. */
  function ReadEntry(lib: Library, buf: seq<byte>, at: nat, entries: seq<Entry>): Result<Step> {
    if at + 46 > |buf| || Get32(buf, at) != CENTRAL then Fail(DirectoryDamaged)
    else
      var h := HeaderAt(lib, buf, at);
      if Skipped(h.name) then Ok(Passed(h.next))
      else
        var entry := Announced(lib, buf, h, entries);
        if entry.Fail? then Fail(entry.error) else Ok(Taken(h.next, entry.value))
  }

  /** The entries taken from the first n directory entries, and where the next one begins. */
  function ReadEntries(lib: Library, buf: seq<byte>, at: nat, n: nat): Result<(nat, seq<Entry>)> {
    if n == 0 then Ok((at, []))
    else
      var before := ReadEntries(lib, buf, at, n - 1);
      if before.Fail? then before
      else
        var step := ReadEntry(lib, buf, before.value.0, before.value.1);
        if step.Fail? then Fail(step.error)
        else if step.value.Passed? then Ok((step.value.next, before.value.1))
        else Ok((step.value.next, before.value.1 + [step.value.entry]))
  }

  /** The last end record, looking no further back than a comment could push it. */
  function EndAt(buf: seq<byte>, i: int, lo: nat): (r: Option<nat>)
    requires i + 22 <= |buf|
    ensures r.Some? ==> r.value <= i
    decreases i
  {
    if i < lo then None else if Get32(buf, i) == END then Some(i) else EndAt(buf, i - 1, lo)
  }

  function Earliest(length: nat): nat {
    if length < 22 + 0xffff then 0 else length - 22 - 0xffff
  }

  // ----- The files -----

  type Files = map<seq<byte>, seq<byte>>

  /** Assigning a property of a plain object. */
  function Assign(files: Files, name: seq<byte>, text: seq<byte>): Files {
    if name == Proto() then files else files[name := text]
  }

  function Collected(entries: seq<Entry>): Files {
    if |entries| == 0 then map[]
    else Assign(Collected(entries[..|entries| - 1]), entries[|entries| - 1].name, entries[|entries| - 1].text)
  }

  predicate NoSlash(s: seq<byte>) {
    Slash() !in s
  }

  predicate Under(top: seq<byte>, name: seq<byte>) {
    top + [Slash()] <= name
  }

  /** Everything lies in this one folder, and no skill file at the root. */
  predicate Wrapped(files: Files, top: seq<byte>) {
    && |files| > 0 && SkillFile() !in files
    && NoSlash(top)
    && forall name :: name in files ==> Under(top, name)
  }

  /** The files without the folder they all lie in. */
  function Unwrapped(files: Files, top: seq<byte>): Files
    requires Wrapped(files, top)
  {
    var names := set name | name in files :: name[|top| + 1..];
    map path | path in names && path != Proto() && top + [Slash()] + path in files :: files[top + [Slash()] + path]
  }

  ghost function Finished(files: Files): Files {
    if top :| Wrapped(files, top) then Unwrapped(files, top) else files
  }

  ghost function ReadArchive(lib: Library, buf: seq<byte>): Result<Files> {
    var found := EndAt(buf, |buf| - 22, Earliest(|buf|));
    if found.None? then Fail(NotZip)
    else
      var at := found.value;
      var count, size, offset := Get16(buf, at + 10), Get32(buf, at + 12), Get32(buf, at + 16);
      if count == 0xffff || offset == 0xffff_ffff then Fail(Zip64)
      else if offset + size > at then Fail(DirectoryOutside)
      else if count > MAX_ENTRIES then Fail(TooManyEntries)
      else
        var entries := ReadEntries(lib, buf, offset, count);
        if entries.Fail? then Fail(entries.error) else Ok(Finished(Collected(entries.value.1)))
  }

  // ----- Safety -----

  /** What is true of the entries taken from any byte string whatever. */
  ghost predicate Sound(buf: seq<byte>, entries: seq<Entry>) {
    && (forall i :: 0 <= i < |entries| ==>
         entries[i].start <= entries[i].end <= |buf| && |entries[i].data| == entries[i].size <= 262144)
    && (forall i, j :: 0 <= i < j < |entries| && entries[j].start < entries[j].end ==>
         !Meets(entries[i], entries[j].start, entries[j].end))
    && Total(entries) <= 1048576 && Compressed(entries) <= 1048576
  }

  /** What the checks on one entry establish. */
  lemma TakenChecked(lib: Library, buf: seq<byte>, at: nat, entries: seq<Entry>)
    requires ReadEntry(lib, buf, at, entries).Ok? && ReadEntry(lib, buf, at, entries).value.Taken?
    ensures var e := ReadEntry(lib, buf, at, entries).value.entry;
      && e.start <= e.end <= |buf| && |e.data| == e.size <= 262144
      && Total(entries) + e.size <= 1048576 && Compressed(entries) + (e.end - e.start) <= 1048576
      && (e.start < e.end ==> forall i :: 0 <= i < |entries| ==> !Meets(entries[i], e.start, e.end))
  {
    hide Skipped, Get16, Get32, Slice, Total, Compressed;
  }

  lemma SoundGrows(buf: seq<byte>, entries: seq<Entry>, e: Entry)
    requires Sound(buf, entries)
    requires e.start <= e.end <= |buf| && |e.data| == e.size <= 262144
    requires Total(entries) + e.size <= 1048576 && Compressed(entries) + (e.end - e.start) <= 1048576
    requires e.start < e.end ==> forall i :: 0 <= i < |entries| ==> !Meets(entries[i], e.start, e.end)
    ensures Sound(buf, entries + [e])
  {
    hide Total, Compressed, Meets;
    OneMore(entries, e);
  }

  lemma OneMore(entries: seq<Entry>, e: Entry)
    ensures Total(entries + [e]) == Total(entries) + e.size
    ensures Compressed(entries + [e]) == Compressed(entries) + (e.end - e.start)
  {
    assert (entries + [e])[..|entries|] == entries;
  }

  /** However the archive was made, the entries taken have their ranges inside it and apart,
      hold as many bytes as they declare, and stay within both limits in all. */
  lemma {:induction false} EntriesSound(lib: Library, buf: seq<byte>, at: nat, n: nat)
    requires ReadEntries(lib, buf, at, n).Ok?
    ensures Sound(buf, ReadEntries(lib, buf, at, n).value.1)
  {
    hide ReadEntry;
    if n > 0 {
      EntriesSound(lib, buf, at, n - 1);
      var before := ReadEntries(lib, buf, at, n - 1).value;
      var step := ReadEntry(lib, buf, before.0, before.1).value;
      if step.Taken? {
        hide Sound;
        TakenChecked(lib, buf, before.0, before.1);
        SoundGrows(buf, before.1, step.entry);
      }
    }
  }

  // ----- The reader -----

  method FindEnd(buf: seq<byte>) returns (r: Option<nat>)
    ensures r == EndAt(buf, |buf| - 22, Earliest(|buf|))
  {
    hide Get32;
    var i := |buf| - 22;
    while i >= Earliest(|buf|)
      invariant i <= |buf| - 22
      invariant EndAt(buf, |buf| - 22, Earliest(|buf|)) == EndAt(buf, i, Earliest(|buf|))
      decreases i
    {
      if Get32(buf, i) == END {
        return Some(i);
      }
      i := i - 1;
    }
    return None;
  }

  datatype Span = Span(start: nat, end: nat)

  /** The ranges in use: those of the entries that have any bytes. */
  function Spans(entries: seq<Entry>): seq<Span> {
    if |entries| == 0 then []
    else
      var e := entries[|entries| - 1];
      Spans(entries[..|entries| - 1]) + (if e.start < e.end then [Span(e.start, e.end)] else [])
  }

  lemma {:induction false} SpansMeet(entries: seq<Entry>, start: nat, end: nat)
    ensures (exists k :: 0 <= k < |Spans(entries)| && start < Spans(entries)[k].end && Spans(entries)[k].start < end)
      <==> exists i :: 0 <= i < |entries| && Meets(entries[i], start, end)
  {
    if |entries| > 0 {
      var n := |entries| - 1;
      SpansMeet(entries[..n], start, end);
      var shorter, all := Spans(entries[..n]), Spans(entries);
      if k :| 0 <= k < |all| && start < all[k].end && all[k].start < end {
        if k < |shorter| {
          assert shorter[k] == all[k];
          var i :| 0 <= i < n && Meets(entries[..n][i], start, end);
          assert Meets(entries[i], start, end);
        } else {
          assert Meets(entries[n], start, end);
        }
      }
      if i :| 0 <= i < |entries| && Meets(entries[i], start, end) {
        if i < n {
          assert Meets(entries[..n][i], start, end);
          var k :| 0 <= k < |shorter| && start < shorter[k].end && shorter[k].start < end;
          assert all[k] == shorter[k];
        } else {
          assert all[|shorter|] == Span(entries[n].start, entries[n].end);
        }
      }
    }
  }

  method Overlapping(used: seq<Span>, start: nat, end: nat) returns (r: bool)
    ensures r <==> exists k :: 0 <= k < |used| && start < used[k].end && used[k].start < end
  {
    for k := 0 to |used|
      invariant forall i :: 0 <= i < k ==> !(start < used[i].end && used[i].start < end)
    {
      if start < used[k].end && used[k].start < end {
        return true;
      }
    }
    return false;
  }

  /** One announced entry, against the running sums and the ranges in use. */
  method ReadAnnounced(lib: Library, buf: seq<byte>, h: Header, total: nat, totalCompressed: nat, used: seq<Span>,
                       ghost entries: seq<Entry>)
    returns (r: Result<Entry>)
    requires total == Total(entries) && totalCompressed == Compressed(entries) && used == Spans(entries)
    ensures r == Announced(lib, buf, h, entries)
  {
    hide Total, Compressed, Spans, Meets, Get16, Get32;
    if h.flags % 2 != 0 {
      return Fail(Encrypted(h.name));
    }
    if h.zipMethod != 0 && h.zipMethod != 8 {
      return Fail(UnknownMethod(h.name));
    }
    if h.size > FILE_BYTES {
      return Fail(FileTooLarge(h.name));
    }
    if total + h.size > TOTAL_BYTES {
      return Fail(TotalTooLarge);
    }
    if totalCompressed + h.compressed > TOTAL_BYTES {
      return Fail(CompressedTooLarge);
    }
    if h.local + 30 > |buf| || Get32(buf, h.local) != LOCAL {
      return Fail(HeaderDamaged(h.name));
    }
    var dataStart := h.local + 30 + Get16(buf, h.local + 26) + Get16(buf, h.local + 28);
    var dataEnd := dataStart + h.compressed;
    if dataEnd > |buf| {
      return Fail(PastEnd(h.name));
    }
    SpansMeet(entries, dataStart, dataEnd);
    if h.compressed > 0 {
      var overlap := Overlapping(used, dataStart, dataEnd);
      if overlap {
        return Fail(Overlaps(h.name));
      }
    }
    var stored := buf[dataStart..dataEnd];
    var data := if h.zipMethod == 0 then Some(stored) else lib.inflate(stored, h.size + 1);
    if data.None? {
      return Fail(NotInflated(h.name));
    }
    if |data.value| != h.size {
      return Fail(WrongSize(h.name));
    }
    if lib.Crc(data.value) != h.crc {
      return Fail(WrongChecksum(h.name));
    }
    var text := lib.Text(data.value);
    if text.None? {
      return Fail(NotText(h.name));
    }
    return Ok(Entry(h.name, dataStart, dataEnd, h.size, data.value, text.value));
  }

  method ReadOne(lib: Library, buf: seq<byte>, at: nat, total: nat, totalCompressed: nat, used: seq<Span>,
                 ghost entries: seq<Entry>)
    returns (r: Result<Step>)
    requires total == Total(entries) && totalCompressed == Compressed(entries) && used == Spans(entries)
    ensures r == ReadEntry(lib, buf, at, entries)
  {
    hide Announced, HeaderAt, Skipped, Get32, Total, Compressed, Spans;
    if at + 46 > |buf| || Get32(buf, at) != CENTRAL {
      return Fail(DirectoryDamaged);
    }
    var h := HeaderAt(lib, buf, at);
    if Skipped(h.name) {
      return Ok(Passed(h.next));
    }
    var entry := ReadAnnounced(lib, buf, h, total, totalCompressed, used, entries);
    return if entry.Fail? then Fail(entry.error) else Ok(Taken(h.next, entry.value));
  }

  lemma SumsGrow(entries: seq<Entry>, e: Entry)
    ensures Total(entries + [e]) == Total(entries) + e.size
    ensures Compressed(entries + [e]) == Compressed(entries) + (e.end - e.start)
    ensures Spans(entries + [e]) == Spans(entries) + (if e.start < e.end then [Span(e.start, e.end)] else [])
    ensures Collected(entries + [e]) == Assign(Collected(entries), e.name, e.text)
  {
    assert (entries + [e])[..|entries|] == entries;
  }

  lemma NoSums()
    ensures Total([]) == 0 && Compressed([]) == 0 && Spans([]) == [] && Collected([]) == map[]
  {
  }

  method ReadDirectory(lib: Library, buf: seq<byte>, dirOffset: nat, count: nat) returns (r: Result<Files>)
    ensures var entries := ReadEntries(lib, buf, dirOffset, count);
      r == if entries.Fail? then Fail(entries.error) else Ok(Collected(entries.value.1))
  {
    hide ReadEntry, Total, Compressed, Spans, Collected, Sound;
    var raw: Files := map[];
    var total, totalCompressed := 0, 0;
    var used: seq<Span> := [];
    var at := dirOffset;
    ghost var entries := [];
    NoSums();
    for n := 0 to count
      invariant ReadEntries(lib, buf, dirOffset, n) == Ok((at, entries))
      invariant total == Total(entries) && totalCompressed == Compressed(entries) && used == Spans(entries)
      invariant 0 <= totalCompressed
      invariant raw == Collected(entries)
    {
      var step := ReadOne(lib, buf, at, total, totalCompressed, used, entries);
      if step.Fail? {
        ReadFails(lib, buf, dirOffset, n + 1, count);
        return Fail(step.error);
      }
      at := step.value.next;
      if step.value.Taken? {
        var e := step.value.entry;
        SumsGrow(entries, e);
        TakenAt(lib, buf, at, step.value, ReadEntries(lib, buf, dirOffset, n).value.0, entries);
        total := total + e.size;
        totalCompressed := totalCompressed + (e.end - e.start);
        if e.start < e.end {
          used := used + [Span(e.start, e.end)];
        }
        raw := Assign(raw, e.name, e.text);
        entries := entries + [e];
      }
    }
    r := Ok(raw);
  }

  lemma TakenAt(lib: Library, buf: seq<byte>, next: nat, step: Step, at: nat, entries: seq<Entry>)
    requires ReadEntry(lib, buf, at, entries) == Ok(step) && step.Taken?
    ensures step.entry.start <= step.entry.end
  {
    TakenChecked(lib, buf, at, entries);
    hide ReadEntry;
  }

  lemma {:induction false} ReadFails(lib: Library, buf: seq<byte>, at: nat, m: nat, n: nat)
    requires m <= n && ReadEntries(lib, buf, at, m).Fail?
    ensures ReadEntries(lib, buf, at, n) == ReadEntries(lib, buf, at, m)
  {
    hide ReadEntry;
    if m < n {
      ReadFails(lib, buf, at, m, n - 1);
    }
  }

  // ----- The top folder -----

  /** What precedes the first slash. */
  function FirstSegment(name: seq<byte>): (s: seq<byte>)
    ensures NoSlash(s) && s <= name
  {
    if |name| == 0 || name[0] == Slash() then [] else [name[0]] + FirstSegment(name[1..])
  }

  lemma {:induction false} FirstSegmentUnique(name: seq<byte>, top: seq<byte>)
    ensures NoSlash(top) && Under(top, name) ==> top == FirstSegment(name)
    ensures !NoSlash(name) ==> Under(FirstSegment(name), name)
    decreases |name|
  {
    if |name| > 0 && name[0] != Slash() {
      FirstSegmentUnique(name[1..], if |top| > 0 then top[1..] else []);
      assert name == [name[0]] + name[1..];
      if NoSlash(top) && Under(top, name) {
        assert (top + [Slash()])[0] == name[0];
        assert top[0] == (top + [Slash()])[0];
        assert top == [top[0]] + top[1..];
        assert (top + [Slash()])[1..] == top[1..] + [Slash()];
        forall b | b in top[1..]
          ensures b in top
        {
        }
      }
      if !NoSlash(name) {
        assert Slash() in name[1..];
        assert FirstSegment(name) + [Slash()] == [name[0]] + (FirstSegment(name[1..]) + [Slash()]);
      }
    } else if NoSlash(top) && Under(top, name) {
      assert (top + [Slash()])[0] == name[0];
      assert |top| == 0;
    }
  }

  /** One top folder holding everything is taken off. */
  method Unwrap(raw: Files) returns (files: Files)
    ensures files == Finished(raw)
  {
    if |raw| == 0 || SkillFile() in raw {
      return raw;
    }
    var some :| some in raw;
    var top := FirstSegment(some);
    var todo := raw.Keys;
    while todo != {}
      invariant todo <= raw.Keys
      invariant forall name :: name in raw.Keys - todo ==> Under(top, name)
      decreases |todo|
    {
      var name :| name in todo;
      if Slash() !in name || FirstSegment(name) != top {
        NotWrapped(raw, some, name);
        return raw;
      }
      FirstSegmentUnique(name, top);
      todo := todo - {name};
    }
    assert Wrapped(raw, top);
    files := map[];
    todo := raw.Keys;
    while todo != {}
      invariant todo <= raw.Keys
      invariant forall path :: path in files <==> path != Proto() && top + [Slash()] + path in raw.Keys - todo
      invariant forall path :: path in files ==> files[path] == raw[top + [Slash()] + path]
      decreases |todo|
    {
      var name :| name in todo;
      assert Under(top, name);
      assert top + [Slash()] + name[|top| + 1..] == name;
      files := Assign(files, name[|top| + 1..], raw[name]);
      todo := todo - {name};
    }
    UnwrappedIs(raw, top, files);
  }

  lemma SlashUnder(top: seq<byte>, name: seq<byte>)
    ensures Under(top, name) ==> Slash() in name
  {
    if Under(top, name) {
      assert (top + [Slash()])[|top|] == name[|top|];
    }
  }

  lemma NotWrapped(raw: Files, some: seq<byte>, name: seq<byte>)
    requires some in raw && name in raw && (Slash() !in name || FirstSegment(name) != FirstSegment(some))
    ensures Finished(raw) == raw
  {
    forall top
      ensures !Wrapped(raw, top)
    {
      if Wrapped(raw, top) {
        SlashUnder(top, name);
        FirstSegmentUnique(some, top);
        FirstSegmentUnique(name, top);
      }
    }
  }

  lemma WrappedOnce(raw: Files, top: seq<byte>, other: seq<byte>)
    requires Wrapped(raw, top) && Wrapped(raw, other)
    ensures top == other
  {
    var some :| some in raw;
    FirstSegmentUnique(some, top);
    FirstSegmentUnique(some, other);
  }

  lemma UnwrappedIs(raw: Files, top: seq<byte>, files: Files)
    requires Wrapped(raw, top)
    requires forall path :: path in files <==> path != Proto() && top + [Slash()] + path in raw
    requires forall path :: path in files ==> files[path] == raw[top + [Slash()] + path]
    ensures files == Finished(raw)
  {
    var t :| Wrapped(raw, t) && Finished(raw) == Unwrapped(raw, t);
    WrappedOnce(raw, top, t);
    var spec := Unwrapped(raw, top);
    forall path
      ensures path in spec <==> path in files
    {
      var name := top + [Slash()] + path;
      assert name[|top| + 1..] == path;
    }
  }

  /** The reader, with its running sums and list of ranges in use. */
  method ReadSkillZip(lib: Library, buf: seq<byte>) returns (r: Result<Files>)
    ensures r == ReadArchive(lib, buf)
  {
    hide Get16, Get32, Finished, ReadEntries, Collected, EndAt;
    var found := FindEnd(buf);
    if found.None? {
      return Fail(NotZip);
    }
    var endAt := found.value;
    var count, dirSize, dirOffset := Get16(buf, endAt + 10), Get32(buf, endAt + 12), Get32(buf, endAt + 16);
    if count == 0xffff || dirOffset == 0xffff_ffff {
      return Fail(Zip64);
    }
    if dirOffset + dirSize > endAt {
      return Fail(DirectoryOutside);
    }
    if count > MAX_ENTRIES {
      return Fail(TooManyEntries);
    }
    var raw := ReadDirectory(lib, buf, dirOffset, count);
    if raw.Fail? {
      return Fail(raw.error);
    }
    var files := Unwrap(raw.value);
    return Ok(files);
  }
}
