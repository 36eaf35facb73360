/** Which byte strings the reader accepts as archives, and as what: stated from the layout of PKWARE APPNOTE 4.3.7,
    4.3.12 and 4.3.16, for every byte string. */
module ZipAccepted {
  import opened Options
  import opened Buffers
  import opened ZipFormat
  import opened ZipReader

  // ----- What an archive says -----

  /** The record at `at` has this number in its field at `offset`. */
  predicate Says16(buf: seq<byte>, at: nat, offset: nat, n: nat) {
    n < 0x1_0000 && Holds(buf, at + offset, Little16(n))
  }

  predicate Says32(buf: seq<byte>, at: nat, offset: nat, n: nat) {
    n < 0x1_0000_0000 && Holds(buf, at + offset, Little32(n))
  }

  /** A directory entry stands at `at`, with this name, and the next one is at `next`. */
  ghost predicate Listed(lib: Library, buf: seq<byte>, at: nat, next: nat, name: seq<byte>) {
    && at + 46 <= |buf| && Holds(buf, at, [0x50, 0x4b, 0x01, 0x02])
    && exists length: nat, extra: nat, comment: nat ::
         && Says16(buf, at, 28, length) && Says16(buf, at, 30, extra) && Says16(buf, at, 32, comment)
         && name == lib.Name(Slice(buf, at + 46, at + 46 + length))
         && next == at + 46 + length + extra + comment
  }

  /** The local header it names has its data from `start` on. */
  ghost predicate Located(buf: seq<byte>, at: nat, start: nat) {
    exists local: nat, name: nat, extra: nat ::
      && Says32(buf, at, 42, local) && Holds(buf, local, [0x50, 0x4b, 0x03, 0x04])
      && Says16(buf, local, 26, name) && Says16(buf, local, 28, extra)
      && start == local + 30 + name + extra
  }

  /** What is stored means this data: as it is, or deflated, when inflating within one byte more than the data gives it. */
  predicate Means(lib: Library, buf: seq<byte>, at: nat, stored: seq<byte>, data: seq<byte>) {
    || (Says16(buf, at, 10, 0) && data == stored)
    || (Says16(buf, at, 10, 8) && lib.inflate(stored, |data| + 1) == Some(data))
  }

  /** A directory entry at `at` that is not encrypted describes this entry truly: where its bytes are, how many, what
      they mean, how long that is and its checksum; and it is text of at most 256 KiB. */
  ghost predicate Describes(lib: Library, buf: seq<byte>, at: nat, e: Entry) {
    && (exists flags: nat :: Says16(buf, at, 8, flags) && flags % 2 == 0)
    && e.start <= e.end <= |buf| && Located(buf, at, e.start)
    && Means(lib, buf, at, buf[e.start..e.end], e.data)
    && Says32(buf, at, 16, lib.Crc(e.data)) && Says32(buf, at, 20, e.end - e.start) && Says32(buf, at, 24, |e.data|)
    && e.size == |e.data| <= 262144
    && lib.isUtf8(e.data) && e.text == WithoutMark(e.data)
  }

  ghost predicate Passes(lib: Library, buf: seq<byte>, at: nat, next: nat) {
    exists name :: Listed(lib, buf, at, next, name) && Skipped(name)
  }

  ghost predicate Gives(lib: Library, buf: seq<byte>, at: nat, next: nat, e: Entry) {
    Listed(lib, buf, at, next, e.name) && !Skipped(e.name) && Describes(lib, buf, at, e)
  }

  /** The directory from ats[0] to ats[|items|], item by item, nothing for those that are passed over. */
  ghost predicate Directory(lib: Library, buf: seq<byte>, ats: seq<nat>, items: seq<Option<Entry>>) {
    && |ats| == |items| + 1
    && forall k :: 0 <= k < |items| ==>
         if items[k].None? then Passes(lib, buf, ats[k], ats[k + 1]) else Gives(lib, buf, ats[k], ats[k + 1], items[k].value)
  }

  function Somes(items: seq<Option<Entry>>): seq<Entry> {
    if |items| == 0 then []
    else Somes(items[..|items| - 1]) + (if items[|items| - 1].None? then [] else [items[|items| - 1].value])
  }

  predicate Covers(e: Entry, p: nat) {
    e.start <= p < e.end
  }

  /** No byte of the archive belongs to two entries. */
  ghost predicate Apart(entries: seq<Entry>) {
    forall i, j, p: nat :: 0 <= i < j < |entries| ==> !(Covers(entries[i], p) && Covers(entries[j], p))
  }

  /** At most 1 MiB in all, inflated and as stored. */
  predicate Small(entries: seq<Entry>) {
    Total(entries) <= 1048576 && Compressed(entries) <= 1048576
  }

  /** The last end record, no further from the end than a comment of 65535 bytes allows. */
  ghost predicate EndsAt(buf: seq<byte>, at: nat) {
    && at + 22 <= |buf| <= at + 22 + 65535 && Holds(buf, at, [0x50, 0x4b, 0x05, 0x06])
    && forall i :: at < i <= |buf| - 22 ==> !Holds(buf, i, [0x50, 0x4b, 0x05, 0x06])
  }

  // ----- Numbers and signatures -----

  lemma Reads16(buf: seq<byte>, at: nat, offset: nat, n: nat)
    ensures Says16(buf, at, offset, n) <==> at + offset + 2 <= |buf| && Get16(buf, at + offset) == n
  {
    if at + offset + 2 <= |buf| && n < 0x1_0000 { Get16When(buf, at + offset, n); }
    hide Little16, Get16;
  }

  lemma Reads32(buf: seq<byte>, at: nat, offset: nat, n: nat)
    ensures Says32(buf, at, offset, n) <==> at + offset + 4 <= |buf| && Get32(buf, at + offset) == n
  {
    if at + offset + 4 <= |buf| && n < 0x1_0000_0000 { Get32When(buf, at + offset, n); }
    hide Little32, Get32;
  }

  lemma Signatures(buf: seq<byte>, at: nat)
    ensures Holds(buf, at, [0x50, 0x4b, 0x01, 0x02]) <==> at + 4 <= |buf| && Get32(buf, at) == CENTRAL
    ensures Holds(buf, at, [0x50, 0x4b, 0x03, 0x04]) <==> at + 4 <= |buf| && Get32(buf, at) == LOCAL
    ensures Holds(buf, at, [0x50, 0x4b, 0x05, 0x06]) <==> at + 4 <= |buf| && Get32(buf, at) == END
  {
    Constants();
    Reads32(buf, at, 0, CENTRAL);
    Reads32(buf, at, 0, LOCAL);
    Reads32(buf, at, 0, END);
    hide Little32, Get32;
  }

  // ----- One entry -----

  lemma ListedWhen(lib: Library, buf: seq<byte>, at: nat, next: nat, name: seq<byte>)
    ensures Listed(lib, buf, at, next, name) <==>
      at + 46 <= |buf| && Get32(buf, at) == CENTRAL && HeaderAt(lib, buf, at).name == name && HeaderAt(lib, buf, at).next == next
  {
    hide Says16, Says32, Get16, Get32, Slice, Holds;
    Signatures(buf, at);
    if at + 46 <= |buf| {
      var n, x, c := Get16(buf, at + 28), Get16(buf, at + 30), Get16(buf, at + 32);
      forall v: nat ensures Says16(buf, at, 28, v) <==> v == n { Reads16(buf, at, 28, v); }
      forall v: nat ensures Says16(buf, at, 30, v) <==> v == x { Reads16(buf, at, 30, v); }
      forall v: nat ensures Says16(buf, at, 32, v) <==> v == c { Reads16(buf, at, 32, v); }
      assert Says16(buf, at, 28, n) && Says16(buf, at, 30, x) && Says16(buf, at, 32, c);
    }
  }

  lemma LocatedWhen(buf: seq<byte>, at: nat, start: nat)
    requires at + 46 <= |buf|
    ensures var local := Get32(buf, at + 42);
      Located(buf, at, start) <==>
        && local + 30 <= |buf| && Get32(buf, local) == LOCAL
        && start == local + 30 + Get16(buf, local + 26) + Get16(buf, local + 28)
  {
    hide Says16, Says32, Get16, Get32, Holds;
    var local := Get32(buf, at + 42);
    forall v: nat ensures Says32(buf, at, 42, v) <==> v == local { Reads32(buf, at, 42, v); }
    Signatures(buf, local);
    forall v: nat ensures Says16(buf, local, 26, v) <==> local + 28 <= |buf| && v == Get16(buf, local + 26) { Reads16(buf, local, 26, v); }
    forall v: nat ensures Says16(buf, local, 28, v) <==> local + 30 <= |buf| && v == Get16(buf, local + 28) { Reads16(buf, local, 28, v); }
    assert Says32(buf, at, 42, local);
    if local + 30 <= |buf| {
      assert Says16(buf, local, 26, Get16(buf, local + 26)) && Says16(buf, local, 28, Get16(buf, local + 28));
    }
  }

  /** What the checks of one entry come to once its place is known. */
  ghost predicate Checked(lib: Library, h: Header, buf: seq<byte>, e: Entry) {
    && h.flags % 2 == 0 && (h.zipMethod == 0 || h.zipMethod == 8)
    && e.end <= |buf| && e.end == e.start + h.compressed
    && (if h.zipMethod == 0 then Some(buf[e.start..e.end]) else lib.inflate(buf[e.start..e.end], h.size + 1)) == Some(e.data)
    && |e.data| == h.size == e.size <= FILE_BYTES && lib.Crc(e.data) == h.crc && lib.Text(e.data) == Some(e.text)
  }

  lemma DescribesWhen(lib: Library, buf: seq<byte>, at: nat, e: Entry)
    requires at + 46 <= |buf|
    ensures Describes(lib, buf, at, e) <==> Located(buf, at, e.start) && Checked(lib, HeaderAt(lib, buf, at), buf, e)
  {
    hide Says16, Says32, Get16, Get32, Holds, Slice, Located;
    var h := HeaderAt(lib, buf, at);
    forall v: nat ensures Says16(buf, at, 8, v) <==> v == h.flags { Reads16(buf, at, 8, v); }
    forall v: nat ensures Says16(buf, at, 10, v) <==> v == h.zipMethod { Reads16(buf, at, 10, v); }
    forall v: nat ensures Says32(buf, at, 16, v) <==> v == h.crc { Reads32(buf, at, 16, v); }
    forall v: nat ensures Says32(buf, at, 20, v) <==> v == h.compressed { Reads32(buf, at, 20, v); }
    forall v: nat ensures Says32(buf, at, 24, v) <==> v == h.size { Reads32(buf, at, 24, v); }
    assert Says16(buf, at, 8, h.flags);
  }

  /** There is room for this entry beside those before it. */
  ghost predicate Room(entries: seq<Entry>, e: Entry) {
    && Total(entries) + e.size <= TOTAL_BYTES && Compressed(entries) + (e.end - e.start) <= TOTAL_BYTES
    && (e.start < e.end ==> forall i :: 0 <= i < |entries| ==> !Meets(entries[i], e.start, e.end))
  }

  lemma AnnouncedWhen(lib: Library, buf: seq<byte>, h: Header, entries: seq<Entry>, e: Entry)
    ensures Announced(lib, buf, h, entries) == Ok(e) <==>
      && h.local + 30 <= |buf| && Get32(buf, h.local) == LOCAL
      && e.start == h.local + 30 + Get16(buf, h.local + 26) + Get16(buf, h.local + 28)
      && e.name == h.name && Checked(lib, h, buf, e) && Room(entries, e)
  {
    hide Get16, Get32, Total, Compressed, Meets;
  }

  lemma EntryWhen(lib: Library, buf: seq<byte>, at: nat, entries: seq<Entry>, next: nat, e: Entry)
    ensures ReadEntry(lib, buf, at, entries) == Ok(Passed(next)) <==> Passes(lib, buf, at, next)
    ensures ReadEntry(lib, buf, at, entries) == Ok(Taken(next, e)) <==> Gives(lib, buf, at, next, e) && Room(entries, e)
  {
    hide Listed, Skipped, Describes, Room, Announced, HeaderAt, Located, Checked;
    forall name
      ensures Listed(lib, buf, at, next, name) <==>
        at + 46 <= |buf| && Get32(buf, at) == CENTRAL && HeaderAt(lib, buf, at).name == name && HeaderAt(lib, buf, at).next == next
    {
      ListedWhen(lib, buf, at, next, name);
    }
    if at + 46 <= |buf| {
      HeaderIs(lib, buf, at);
      DescribesWhen(lib, buf, at, e);
      LocatedWhen(buf, at, e.start);
      AnnouncedWhen(lib, buf, HeaderAt(lib, buf, at), entries, e);
    }
    hide Get16, Get32;
  }

  lemma HeaderIs(lib: Library, buf: seq<byte>, at: nat)
    requires at + 46 <= |buf|
    ensures HeaderAt(lib, buf, at).local == Get32(buf, at + 42)
  {
    hide Get16, Get32, Slice;
  }

  // ----- The directory -----

  lemma MeetsWhen(a: Entry, b: Entry)
    ensures b.start < b.end ==> (Meets(a, b.start, b.end) <==> exists p: nat :: Covers(a, p) && Covers(b, p))
    ensures b.start >= b.end ==> forall p: nat :: !Covers(b, p)
  {
    if b.start < b.end && Meets(a, b.start, b.end) {
      var p := if a.start < b.start then b.start else a.start;
      assert Covers(a, p) && Covers(b, p);
    }
  }

  /** Room among the entries before is what one entry more needs. */
  lemma RoomWhen(entries: seq<Entry>, e: Entry)
    requires e.start <= e.end
    ensures Apart(entries + [e]) && Small(entries + [e]) <==>
      Apart(entries) && Small(entries + [e]) && Room(entries, e)
  {
    hide Total, Compressed, Meets, Covers;
    OneMore(entries, e);
    var more := entries + [e];
    forall i | 0 <= i < |entries|
      ensures more[i] == entries[i]
      ensures e.start < e.end ==> (Meets(entries[i], e.start, e.end) <==> exists p: nat :: Covers(entries[i], p) && Covers(e, p))
      ensures e.start >= e.end ==> forall p: nat :: !Covers(e, p)
    {
      MeetsWhen(entries[i], e);
    }
    if Apart(entries) && Room(entries, e) {
      forall i, j, p: nat | 0 <= i < j < |more|
        ensures !(Covers(more[i], p) && Covers(more[j], p))
      {
      }
    }
    if Apart(more) {
      forall i, j, p: nat | 0 <= i < j < |entries|
        ensures !(Covers(entries[i], p) && Covers(entries[j], p))
      {
        assert more[i] == entries[i] && more[j] == entries[j];
      }
      forall i, p: nat | 0 <= i < |entries|
        ensures !(Covers(entries[i], p) && Covers(e, p))
      {
        assert more[i] == entries[i] && more[|entries|] == e;
      }
    }
  }

  /** A directory, the entries it gives being apart and small. */
  ghost predicate Good(lib: Library, buf: seq<byte>, ats: seq<nat>, items: seq<Option<Entry>>) {
    Directory(lib, buf, ats, items) && Apart(Somes(items)) && Small(Somes(items))
  }

  lemma SomesGrow(items: seq<Option<Entry>>, item: Option<Entry>)
    ensures Somes(items + [item]) == if item.None? then Somes(items) else Somes(items) + [item.value]
  {
    assert (items + [item])[..|items|] == items;
  }

  lemma NoItems(lib: Library, buf: seq<byte>, at: nat)
    ensures Good(lib, buf, [at], []) && Somes([]) == [] && ReadEntries(lib, buf, at, 0) == Ok((at, []))
  {
  }

  lemma ReadStep(lib: Library, buf: seq<byte>, at: nat, n: nat)
    requires n > 0
    ensures ReadEntries(lib, buf, at, n) ==
      var before := ReadEntries(lib, buf, at, n - 1);
      if before.Fail? then before else
      var step := ReadEntry(lib, buf, before.value.0, before.value.1);
      if step.Fail? then Fail(step.error)
      else if step.value.Passed? then Ok((step.value.next, before.value.1))
      else Ok((step.value.next, before.value.1 + [step.value.entry]))
  {
    hide ReadEntry;
  }

  lemma DirectoryGrows(lib: Library, buf: seq<byte>, ats: seq<nat>, items: seq<Option<Entry>>, next: nat, item: Option<Entry>)
    requires |ats| == |items| + 1
    ensures Directory(lib, buf, ats + [next], items + [item]) <==>
      && Directory(lib, buf, ats, items)
      && if item.None? then Passes(lib, buf, ats[|items|], next) else Gives(lib, buf, ats[|items|], next, item.value)
  {
    hide Passes, Gives;
    var more, longer := ats + [next], items + [item];
    assert longer[|items|] == item && more[|items|] == ats[|items|] && more[|items| + 1] == next;
    assert longer[..|items|] == items && more[..|ats|] == ats;
  }

  lemma GivesForward(lib: Library, buf: seq<byte>, at: nat, next: nat, e: Entry)
    requires Gives(lib, buf, at, next, e)
    ensures e.start <= e.end
  {
    hide Listed, Skipped, Located, Means;
  }

  /** One item more is good exactly when the reader takes it after the others. */
  lemma GoodStep(lib: Library, buf: seq<byte>, ats: seq<nat>, items: seq<Option<Entry>>, next: nat, item: Option<Entry>)
    requires |ats| == |items| + 1
    ensures Good(lib, buf, ats + [next], items + [item]) <==>
      && Good(lib, buf, ats, items)
      && ReadEntry(lib, buf, ats[|items|], Somes(items)) == Ok(if item.None? then Passed(next) else Taken(next, item.value))
  {
    hide Directory, Apart, Somes, Total, Compressed, Room, ReadEntry, Passes, Gives;
    DirectoryGrows(lib, buf, ats, items, next, item);
    SomesGrow(items, item);
    var entries, at := Somes(items), ats[|items|];
    if item.None? {
      EntryWhen(lib, buf, at, entries, next, Entry([], 0, 0, 0, [], []));
    } else {
      var e := item.value;
      EntryWhen(lib, buf, at, entries, next, e);
      if Gives(lib, buf, at, next, e) {
        GivesForward(lib, buf, at, next, e);
        RoomWhen(entries, e);
        OneMore(entries, e);
        RoomIs(entries, e);
      }
    }
  }

  lemma RoomIs(entries: seq<Entry>, e: Entry)
    ensures Room(entries, e) ==> Total(entries) + e.size <= 1048576 && Compressed(entries) + (e.end - e.start) <= 1048576
  {
    hide Total, Compressed, Meets;
  }

  lemma LastItem(ats: seq<nat>, items: seq<Option<Entry>>)
    requires |ats| == |items| + 1 && |items| > 0
    ensures var n := |items| - 1;
      ats == ats[..n + 1] + [ats[n + 1]] && items == items[..n] + [items[n]] && ats[..n + 1][n] == ats[n] && ats[..n + 1][0] == ats[0]
  {
  }

  lemma {:induction false} GoodIsRead(lib: Library, buf: seq<byte>, ats: seq<nat>, items: seq<Option<Entry>>)
    requires Good(lib, buf, ats, items) && |ats| == |items| + 1
    ensures ReadEntries(lib, buf, ats[0], |items|) == Ok((ats[|items|], Somes(items)))
    decreases |items|
  {
    hide *;
    var n := |items|;
    if n == 0 {
      NoItems(lib, buf, ats[0]);
    } else {
      LastItem(ats, items);
      GoodStep(lib, buf, ats[..n], items[..n - 1], ats[n], items[n - 1]);
      GoodIsRead(lib, buf, ats[..n], items[..n - 1]);
      ReadStep(lib, buf, ats[0], n);
      SomesGrow(items[..n - 1], items[n - 1]);
    }
  }

  lemma {:induction false} ReadIsGood(lib: Library, buf: seq<byte>, at: nat, n: nat)
    returns (ats: seq<nat>, items: seq<Option<Entry>>)
    requires ReadEntries(lib, buf, at, n).Ok?
    ensures |items| == n && |ats| == n + 1 && ats[0] == at && Good(lib, buf, ats, items)
    ensures ReadEntries(lib, buf, at, n) == Ok((ats[n], Somes(items)))
  {
    hide *;
    if n == 0 {
      ats, items := [at], [];
      NoItems(lib, buf, at);
    } else {
      ReadStep(lib, buf, at, n);
      ats, items := ReadIsGood(lib, buf, at, n - 1);
      var step := ReadEntry(lib, buf, ats[n - 1], Somes(items)).value;
      var item := if step.Passed? then None else Some(step.entry);
      GoodStep(lib, buf, ats, items, step.next, item);
      SomesGrow(items, item);
      ats, items := ats + [step.next], items + [item];
    }
  }

  // ----- The archive -----

  /** An end record at `end` announces so many entries from `start` on, in a directory that ends before it. */
  ghost predicate Announces(buf: seq<byte>, end: nat, count: nat, start: nat) {
    && EndsAt(buf, end)
    && Says16(buf, end, 10, count) && count <= 256
    && Says32(buf, end, 16, start) && start < 0xffff_ffff
    && exists size: nat :: Says32(buf, end, 12, size) && start + size <= end
  }

  lemma {:induction false} EndAtWhen(buf: seq<byte>, i: int, lo: nat, at: nat)
    requires i + 22 <= |buf|
    ensures EndAt(buf, i, lo) == Some(at) <==>
      lo <= at <= i && Get32(buf, at) == END && forall j :: at < j <= i ==> Get32(buf, j) != END
    decreases i
  {
    hide Get32;
    if i >= lo && Get32(buf, i) != END {
      EndAtWhen(buf, i - 1, lo, at);
    }
  }

  lemma EndWhen(buf: seq<byte>, at: nat)
    ensures EndAt(buf, |buf| - 22, Earliest(|buf|)) == Some(at) <==> EndsAt(buf, at)
  {
    hide Get32, Holds, EndAt;
    EndAtWhen(buf, |buf| - 22, Earliest(|buf|), at);
    Signatures(buf, at);
    forall i: nat | at < i <= |buf| - 22
      ensures Holds(buf, i, [0x50, 0x4b, 0x05, 0x06]) <==> Get32(buf, i) == END
    {
      Signatures(buf, i);
    }
  }

  lemma AnnouncesWhen(buf: seq<byte>, end: nat, count: nat, start: nat)
    requires EndsAt(buf, end)
    ensures Announces(buf, end, count, start) <==>
      && Get16(buf, end + 10) == count <= MAX_ENTRIES && Get32(buf, end + 16) == start && start < 0xffff_ffff
      && start + Get32(buf, end + 12) <= end
  {
    hide Get16, Get32, Says16, Says32, Holds;
    Reads16(buf, end, 10, count);
    Reads32(buf, end, 16, start);
    forall v: nat ensures Says32(buf, end, 12, v) <==> v == Get32(buf, end + 12) { Reads32(buf, end, 12, v); }
    assert Says32(buf, end, 12, Get32(buf, end + 12));
  }

  /** The whole reader: the files are these exactly when the bytes end in an end record that announces a directory
      whose entries are all described truly, apart and small, and give these files. */
  lemma AcceptedWhen(lib: Library, buf: seq<byte>, files: Files)
    ensures ReadArchive(lib, buf) == Ok(files) <==>
      exists end: nat, ats: seq<nat>, items: seq<Option<Entry>> ::
        && Good(lib, buf, ats, items) && |ats| == |items| + 1 && Announces(buf, end, |items|, ats[0])
        && files == Finished(Collected(Somes(items)))
  {
    hide Good, Finished, Collected, Somes, EndsAt, EndAt, Get16, Get32, ReadEntries, Earliest;
    if ReadArchive(lib, buf) == Ok(files) {
      var end := EndAt(buf, |buf| - 22, Earliest(|buf|)).value;
      EndWhen(buf, end);
      var count, start := Get16(buf, end + 10), Get32(buf, end + 16);
      var ats, items := ReadIsGood(lib, buf, start, count);
      AnnouncesWhen(buf, end, count, start);
    }
    if end: nat, ats: seq<nat>, items: seq<Option<Entry>> :|
      && Good(lib, buf, ats, items) && |ats| == |items| + 1 && Announces(buf, end, |items|, ats[0])
      && files == Finished(Collected(Somes(items)))
    {
      EndWhen(buf, end);
      AnnouncesWhen(buf, end, |items|, ats[0]);
      GoodIsRead(lib, buf, ats, items);
    }
  }

  // ----- Files of one name -----

  /** Entry i is the last of this name. */
  predicate LastNamed(entries: seq<Entry>, name: seq<byte>, i: nat) {
    i < |entries| && entries[i].name == name && forall j :: i < j < |entries| ==> entries[j].name != name
  }

  /** Of several entries of one name the last counts; one named `__proto__` never does. */
  lemma {:induction false} CollectedWhen(entries: seq<Entry>, name: seq<byte>, text: seq<byte>)
    ensures name in Collected(entries) && Collected(entries)[name] == text <==>
      name != Ascii("__proto__") && exists i: nat :: LastNamed(entries, name, i) && entries[i].text == text
  {
    hide Proto;
    ProtoIs();
    if |entries| > 0 {
      var n := |entries| - 1;
      var short, last := entries[..n], entries[n];
      CollectedWhen(short, name, text);
      forall i: nat ensures LastNamed(entries, name, i) <==> if last.name == name then i == n else LastNamed(short, name, i) {
        NamedStep(entries, name, i);
      }
      if last.name == name {
        assert LastNamed(entries, name, n);
      } else {
        assert forall i: nat :: LastNamed(short, name, i) ==> short[i] == entries[i];
      }
    }
  }

  lemma NamedStep(entries: seq<Entry>, name: seq<byte>, i: nat)
    requires |entries| > 0
    ensures var n := |entries| - 1;
      LastNamed(entries, name, i) <==> if entries[n].name == name then i == n else LastNamed(entries[..n], name, i)
  {
  }

  lemma ProtoIs()
    ensures Proto() == Ascii("__proto__")
  {
  }
}
