/** Reading back a written archive. */
module ZipRoundTrip {
  import opened Options
  import opened Buffers
  import opened ZipFormat
  import opened ZipReader
  import opened ZipAccepted
  import ZipPack

  // ----- What is written -----

  function ContentTotal(files: seq<File>, n: nat): nat
    requires n <= |files|
  {
    if n == 0 then 0 else ContentTotal(files, n - 1) + |files[n - 1].content|
  }

  /** A folder the format accepts: few enough files, small enough, under different paths that
      do not end in a slash, all of it UTF-8. */
  ghost predicate Accepted(lib: Library, folder: seq<byte>, files: seq<File>) {
    && NoSlash(folder)
    && |files| <= 64
    && ContentTotal(files, |files|) <= 1048576
    && (forall i :: 0 <= i < |files| ==>
         && |files[i].path| > 0 && files[i].path[|files[i].path| - 1] != Slash()
         && |files[i].content| <= 262144
         && lib.isUtf8(files[i].content) && lib.isUtf8(NameIn(folder, files[i])))
    && DistinctPaths(files)
  }

  ghost predicate DistinctPaths(files: seq<File>) {
    forall i, j :: 0 <= i < j < |files| ==> files[i].path != files[j].path
  }

  /** The names fit their sixteen-bit length fields. */
  ghost predicate ShortNames(folder: seq<byte>, files: seq<File>) {
    forall i :: 0 <= i < |files| ==> |NameIn(folder, files[i])| < 0x1_0000
  }

  lemma {:induction false} LocalsBound(lib: Library, folder: seq<byte>, files: seq<File>, n: nat)
    requires ShortNames(folder, files) && n <= |files|
    ensures |Locals(lib, folder, files, n)| <= n * 0x1_001e + ContentTotal(files, n)
    ensures |Centrals(lib, folder, files, n)| <= n * 0x1_002e
  {
    hide LocalHeader, CentralHeader;
    if n > 0 {
      LocalsBound(lib, folder, files, n - 1);
    }
  }

  /** An accepted folder is written exactly when its names are short enough. */
  lemma WritableWhen(lib: Library, folder: seq<byte>, files: seq<File>)
    requires Accepted(lib, folder, files)
    ensures Writable(lib, folder, files) <==> ShortNames(folder, files)
    ensures ShortNames(folder, files) ==> |Locals(lib, folder, files, |files|)| < 0xffff_ffff
  {
    hide Locals, Centrals;
    if ShortNames(folder, files) {
      LocalsBound(lib, folder, files, |files|);
    }
  }

  // ----- A written archive among archives -----

  /** A file as the writer packs it: stored, and nothing besides. */
  function MemberOf(lib: Library, folder: seq<byte>, f: File): ZipPack.Member {
    ZipPack.Member(NameIn(folder, f), f.content, 0x0800, 0, f.content, Shared(lib, NameIn(folder, f), f.content)[..22], [], [],
                   [20, 0, 20, 0], [0, 0, 0x21, 0x00], Zeros(8), [], [])
  }

  function Members(lib: Library, folder: seq<byte>, files: seq<File>): (ms: seq<ZipPack.Member>)
    ensures |ms| == |files|
  {
    seq(|files|, k requires 0 <= k < |files| => MemberOf(lib, folder, files[k]))
  }

  function Rest(count: nat): ZipPack.Rest {
    ZipPack.Rest(Zeros(4) + Little16(count), [])
  }

  lemma SharedParts(lib: Library, name: seq<byte>, data: seq<byte>)
    ensures Shared(lib, name, data)
      == Shared(lib, name, data)[..22] + (Little16(|name|) + (Little16(0) + []))
    ensures Shared(lib, name, data)
      == [20, 0] + ([0x00, 0x08] + ([0, 0] + ([0, 0, 0x21, 0x00]
         + ((Little32(lib.Crc(data)) + (Little32(|data|) + Little32(|data|))) + (Little16(|name|) + [0, 0])))))
  {
    Constants();
    hide Little32;
  }

  lemma LocalIsPacked(lib: Library, folder: seq<byte>, f: File)
    ensures LocalRecord(lib, folder, f) == ZipPack.LocalPart(MemberOf(lib, folder, f))
  {
    var name, data := NameIn(folder, f), f.content;
    SharedParts(lib, name, data);
    hide Shared, Little16, Little32, NameIn;
    assert name + [] == name && data + [] == data;
  }

  lemma CentralIsPacked(lib: Library, folder: seq<byte>, files: seq<File>, k: nat)
    requires k < |files|
    ensures CentralRecord(lib, folder, files, k)
      == ZipPack.CentralPart(lib, MemberOf(lib, folder, files[k]), |Locals(lib, folder, files, k)|)
  {
    var name, data := NameIn(folder, files[k]), files[k].content;
    SharedParts(lib, name, data);
    Constants();
    hide Shared, Little32, NameIn, Locals;
  }

  lemma {:induction false} RecordsArePacked(lib: Library, folder: seq<byte>, files: seq<File>, n: nat)
    requires n <= |files|
    ensures Locals(lib, folder, files, n) == ZipPack.Locals(Members(lib, folder, files), n)
    ensures Centrals(lib, folder, files, n) == ZipPack.Centrals(lib, Members(lib, folder, files), n)
  {
    hide LocalRecord, CentralRecord, ZipPack.LocalPart, ZipPack.CentralPart, MemberOf;
    if n > 0 {
      RecordsArePacked(lib, folder, files, n - 1);
      LocalIsPacked(lib, folder, files[n - 1]);
      CentralIsPacked(lib, folder, files, n - 1);
    }
  }

  lemma EndIsPacked(count: nat, size: nat, start: nat)
    ensures EndRecord(count, size, start) == ZipPack.EndPart(count, size, start, Rest(count))
  {
    Constants();
    hide Little32;
  }

  lemma ArchiveIsPack(lib: Library, folder: seq<byte>, files: seq<File>)
    ensures Archive(lib, folder, files) == ZipPack.Pack(lib, Members(lib, folder, files), Rest(|files|))
  {
    hide Locals, Centrals, ZipPack.Locals, ZipPack.Centrals, EndRecord, ZipPack.EndPart, Members;
    RecordsArePacked(lib, folder, files, |files|);
    EndIsPacked(|files|, |Centrals(lib, folder, files, |files|)|, |Locals(lib, folder, files, |files|)|);
  }

  // ----- The two headers of a file -----

  /** In a written archive file k's directory entry names the place of its local header; the two agree in all they share,
      version, flags, method, time, date, checksum, sizes and lengths; both sizes are the content's; and name and content
      follow. */
  lemma HeadersAgree(lib: Library, folder: seq<byte>, files: seq<File>, k: nat)
    requires Writable(lib, folder, files) && k < |files|
    ensures
      var zip, name, data := Archive(lib, folder, files), NameIn(folder, files[k]), files[k].content;
      var at := |Locals(lib, folder, files, |files|)| + |Centrals(lib, folder, files, k)|;
      var local := |Locals(lib, folder, files, k)|;
      && at + 46 <= |zip| && local + 30 <= |zip|
      && Says32(zip, at, 42, local) && zip[local + 4..local + 30] == zip[at + 6..at + 32]
      && Says32(zip, local, 14, lib.Crc(data)) && Says32(zip, local, 18, |data|) && Says32(zip, local, 22, |data|)
      && Says32(zip, at, 16, lib.Crc(data)) && Says32(zip, at, 20, |data|) && Says32(zip, at, 24, |data|)
      && Holds(zip, at + 46, name) && Holds(zip, local + 30, name) && Holds(zip, local + 30 + |name|, data)
  {
    hide *;
    WritableFile(lib, folder, files, k);
    RecordsPlaced(lib, folder, files, k);
    var zip, name, data := Archive(lib, folder, files), NameIn(folder, files[k]), files[k].content;
    var at, local := |Locals(lib, folder, files, |files|)| + |Centrals(lib, folder, files, k)|, |Locals(lib, folder, files, k)|;
    CentralShared(lib, zip, at, name, data, local);
    LocalShared(lib, zip, local, name, data);
    SharedSays(lib, zip, at + 6, name, data);
    SharedSays(lib, zip, local + 4, name, data);
    SameShared(zip, at + 6, local + 4, Shared(lib, name, data));
    Shifted(zip, at, name, data, lib, local);
  }

  lemma WritableFile(lib: Library, folder: seq<byte>, files: seq<File>, k: nat)
    requires Writable(lib, folder, files) && k < |files|
    ensures |NameIn(folder, files[k])| < 0x1_0000 && |files[k].content| < 0x1_0000_0000
    ensures |Locals(lib, folder, files, k)| < 0x1_0000_0000
  {
    LocalsGrow(lib, folder, files, k, |files|);
    hide Locals, Centrals, NameIn;
  }

  lemma RecordsPlaced(lib: Library, folder: seq<byte>, files: seq<File>, k: nat)
    requires k < |files|
    ensures
      var zip, name, data := Archive(lib, folder, files), NameIn(folder, files[k]), files[k].content;
      var at, local := |Locals(lib, folder, files, |files|)| + |Centrals(lib, folder, files, k)|, |Locals(lib, folder, files, k)|;
      && Holds(zip, at, CentralHeader(lib, name, data, local) + name)
      && Holds(zip, local, LocalHeader(lib, name, data) + name + data)
  {
    hide *;
    var ms := Members(lib, folder, files);
    ArchiveIsPack(lib, folder, files);
    RecordsArePacked(lib, folder, files, |files|);
    RecordsArePacked(lib, folder, files, k);
    ZipPack.PackHolds(lib, ms, Rest(|files|));
    ZipPack.LocalsHold(ZipPack.Pack(lib, ms, Rest(|files|)), ms, |ms|, k);
    ZipPack.CentralsHold(lib, ZipPack.Pack(lib, ms, Rest(|files|)), |ZipPack.Locals(ms, |ms|)|, ms, |ms|, k);
    MemberIs(lib, folder, files, k);
    LocalIsPacked(lib, folder, files[k]);
    CentralIsPacked(lib, folder, files, k);
    RecordParts(lib, folder, files, k);
  }

  lemma MemberIs(lib: Library, folder: seq<byte>, files: seq<File>, k: nat)
    requires k < |files|
    ensures Members(lib, folder, files)[k] == MemberOf(lib, folder, files[k])
  {
    hide MemberOf;
  }

  lemma RecordParts(lib: Library, folder: seq<byte>, files: seq<File>, k: nat)
    requires k < |files|
    ensures CentralRecord(lib, folder, files, k)
         == CentralHeader(lib, NameIn(folder, files[k]), files[k].content, |Locals(lib, folder, files, k)|) + NameIn(folder, files[k])
    ensures LocalRecord(lib, folder, files[k])
         == LocalHeader(lib, NameIn(folder, files[k]), files[k].content) + NameIn(folder, files[k]) + files[k].content
  {
    hide CentralHeader, LocalHeader, Locals, NameIn;
  }

  lemma CentralShared(lib: Library, zip: seq<byte>, at: nat, name: seq<byte>, data: seq<byte>, local: nat)
    requires Holds(zip, at, CentralHeader(lib, name, data, local) + name)
    ensures Holds(zip, at + 6, Shared(lib, name, data)) && Holds(zip, at + 42, Little32(local)) && Holds(zip, at + 46, name)
  {
    hide *;
    HeadersAre(lib, name, data, local);
    var a, b, c := [0x50, 0x4b, 0x01, 0x02] + [20, 0], Shared(lib, name, data), Zeros(10);
    HoldsParts(zip, at, a + b + c + Little32(local), name);
    HoldsParts(zip, at, a + b + c, Little32(local));
    HoldsParts(zip, at, a + b, c);
    HoldsParts(zip, at, a, b);
  }

  lemma LocalShared(lib: Library, zip: seq<byte>, at: nat, name: seq<byte>, data: seq<byte>)
    requires Holds(zip, at, LocalHeader(lib, name, data) + name + data)
    ensures Holds(zip, at + 4, Shared(lib, name, data)) && Holds(zip, at + 30, name) && Holds(zip, at + 30 + |name|, data)
  {
    hide *;
    HeadersAre(lib, name, data, 0);
    HoldsParts(zip, at, LocalHeader(lib, name, data) + name, data);
    HoldsParts(zip, at, LocalHeader(lib, name, data), name);
    HoldsParts(zip, at, [0x50, 0x4b, 0x03, 0x04], Shared(lib, name, data));
  }

  /** Checksum and sizes, ten bytes into what the headers share. */
  lemma SharedSays(lib: Library, zip: seq<byte>, at: nat, name: seq<byte>, data: seq<byte>)
    requires Holds(zip, at, Shared(lib, name, data)) && |data| < 0x1_0000_0000
    ensures Says32(zip, at, 10, lib.Crc(data)) && Says32(zip, at, 14, |data|) && Says32(zip, at, 18, |data|)
  {
    SharedParts(lib, name, data);
    hide Holds, Little16, Little32, Shared;
    var f := Little16(|name|) + [0, 0];
    var e := (Little32(lib.Crc(data)) + (Little32(|data|) + Little32(|data|))) + f;
    HoldsParts(zip, at, [20, 0], [0x00, 0x08] + ([0, 0] + ([0, 0, 0x21, 0x00] + e)));
    HoldsParts(zip, at + 2, [0x00, 0x08], [0, 0] + ([0, 0, 0x21, 0x00] + e));
    HoldsParts(zip, at + 4, [0, 0], [0, 0, 0x21, 0x00] + e);
    HoldsParts(zip, at + 6, [0, 0, 0x21, 0x00], e);
    HoldsParts(zip, at + 10, Little32(lib.Crc(data)) + (Little32(|data|) + Little32(|data|)), f);
    HoldsParts(zip, at + 10, Little32(lib.Crc(data)), Little32(|data|) + Little32(|data|));
    HoldsParts(zip, at + 14, Little32(|data|), Little32(|data|));
  }

  lemma SameShared(zip: seq<byte>, a: nat, b: nat, part: seq<byte>)
    requires Holds(zip, a, part) && Holds(zip, b, part)
    ensures a + |part| <= |zip| && b + |part| <= |zip| && zip[a..a + |part|] == zip[b..b + |part|]
  {
  }

  lemma Shifted(zip: seq<byte>, at: nat, name: seq<byte>, data: seq<byte>, lib: Library, local: nat)
    requires Holds(zip, at + 42, Little32(local)) && local < 0x1_0000_0000
    requires Says32(zip, at + 6, 10, lib.Crc(data)) && Says32(zip, at + 6, 14, |data|) && Says32(zip, at + 6, 18, |data|)
    requires Says32(zip, local + 4, 10, lib.Crc(data)) && Says32(zip, local + 4, 14, |data|) && Says32(zip, local + 4, 18, |data|)
    ensures at + 46 <= |zip| && Says32(zip, at, 42, local)
    ensures Says32(zip, at, 16, lib.Crc(data)) && Says32(zip, at, 20, |data|) && Says32(zip, at, 24, |data|)
    ensures Says32(zip, local, 14, lib.Crc(data)) && Says32(zip, local, 18, |data|) && Says32(zip, local, 22, |data|)
  {
    hide Little32;
  }

  /** The end record counts the files twice, on this disk and in all, and says where the directory is and how long. */
  lemma EndCounts(lib: Library, folder: seq<byte>, files: seq<File>)
    requires Writable(lib, folder, files)
    ensures
      var zip := Archive(lib, folder, files);
      var end := |zip| - 22;
      && end >= 0 && end == |Locals(lib, folder, files, |files|)| + |Centrals(lib, folder, files, |files|)|
      && Holds(zip, end, [0x50, 0x4b, 0x05, 0x06]) && Says16(zip, end, 8, |files|) && Says16(zip, end, 10, |files|)
      && Says32(zip, end, 12, |Centrals(lib, folder, files, |files|)|) && Says32(zip, end, 16, |Locals(lib, folder, files, |files|)|)
  {
    hide *;
    var locals, centrals := Locals(lib, folder, files, |files|), Centrals(lib, folder, files, |files|);
    WritableEnds(lib, folder, files);
    EndHeld(Archive(lib, folder, files), locals + centrals, EndRecord(|files|, |centrals|, |locals|));
    EndSays(Archive(lib, folder, files), |locals| + |centrals|, |files|, |centrals|, |locals|);
  }

  lemma WritableEnds(lib: Library, folder: seq<byte>, files: seq<File>)
    requires Writable(lib, folder, files)
    ensures var locals, centrals := Locals(lib, folder, files, |files|), Centrals(lib, folder, files, |files|);
      && |files| < 0x1_0000 && |locals| < 0x1_0000_0000 && |centrals| < 0x1_0000_0000
      && Archive(lib, folder, files) == locals + centrals + EndRecord(|files|, |centrals|, |locals|)
  {
    hide Locals, Centrals, EndRecord, NameIn;
  }

  lemma EndSays(zip: seq<byte>, end: nat, count: nat, size: nat, start: nat)
    requires Holds(zip, end, EndRecord(count, size, start)) && count < 0x1_0000 && size < 0x1_0000_0000 && start < 0x1_0000_0000
    ensures Holds(zip, end, [0x50, 0x4b, 0x05, 0x06]) && Says16(zip, end, 8, count) && Says16(zip, end, 10, count)
    ensures Says32(zip, end, 12, size) && Says32(zip, end, 16, start)
  {
    EndIs(count, size, start);
    hide Little16, Little32, EndRecord, Holds, Zeros;
    var c := [0x50, 0x4b, 0x05, 0x06] + Zeros(4) + Little16(count);
    HoldsParts(zip, end, c + Little16(count) + Little32(size) + Little32(start), Zeros(2));
    HoldsParts(zip, end, c + Little16(count) + Little32(size), Little32(start));
    HoldsParts(zip, end, c + Little16(count), Little32(size));
    HoldsParts(zip, end, c, Little16(count));
    HoldsParts(zip, end, [0x50, 0x4b, 0x05, 0x06] + Zeros(4), Little16(count));
    HoldsParts(zip, end, [0x50, 0x4b, 0x05, 0x06], Zeros(4));
  }

  lemma EndHeld(zip: seq<byte>, a: seq<byte>, end: seq<byte>)
    requires zip == a + end
    ensures Holds(zip, |a|, end)
  {
  }

  // ----- The files that come back -----

  function MacFolder(): seq<byte> { Ascii("__MACOSX") }
  function LitterName(): seq<byte> { Ascii(".DS_Store") }
  function ProtoName(): seq<byte> { Ascii("__proto__") }
  function SkillName(): seq<byte> { Ascii("SKILL.md") }

  /** The reader skips this file whatever it holds. */
  predicate Dropped(folder: seq<byte>, f: File) {
    folder == MacFolder() || LastSegment(f.path) == LitterName()
  }

  /** The first n files that are not dropped, as their text is read. */
  function Kept(folder: seq<byte>, files: seq<File>, n: nat): Files
    requires n <= |files|
  {
    if n == 0 then map[]
    else if Dropped(folder, files[n - 1]) then Kept(folder, files, n - 1)
    else Kept(folder, files, n - 1)[files[n - 1].path := WithoutMark(files[n - 1].content)]
  }

  /** The first n files as they were given. */
  function Original(files: seq<File>, n: nat): Files
    requires n <= |files|
  {
    if n == 0 then map[] else Original(files, n - 1)[files[n - 1].path := files[n - 1].content]
  }

  /** What reading an archive of the folder gives. */
  function Survivors(folder: seq<byte>, files: seq<File>): Files {
    Kept(folder, files, |files|) - {ProtoName()}
  }

  lemma {:induction false} LastSegmentBehind(a: seq<byte>, p: seq<byte>)
    ensures LastSegment(a + [Slash()] + p) == LastSegment(p)
    decreases |p|
  {
    var whole := a + [Slash()] + p;
    if |p| == 0 {
      assert whole[|whole| - 1] == Slash();
    } else {
      assert whole[|whole| - 1] == p[|p| - 1];
      assert whole[..|whole| - 1] == a + [Slash()] + p[..|p| - 1];
      LastSegmentBehind(a, p[..|p| - 1]);
    }
  }

  lemma MacNames()
    ensures MacPrefix() == MacFolder() + [Slash()] && NoSlash(MacFolder()) && Slash() !in ProtoName() && Slash() !in SkillName()
    ensures DsStore() == LitterName() && Proto() == ProtoName() && SkillFile() == SkillName()
  {
  }

  lemma SkippedWhen(folder: seq<byte>, f: File)
    requires NoSlash(folder) && |f.path| > 0 && f.path[|f.path| - 1] != Slash()
    ensures Skipped(NameIn(folder, f)) <==> Dropped(folder, f)
  {
    var name := NameIn(folder, f);
    assert name[|name| - 1] == f.path[|f.path| - 1];
    LastSegmentBehind(folder, f.path);
    MacNames();
    assert Under(folder, name);
    FirstSegmentUnique(name, folder);
    FirstSegmentUnique(name, MacFolder());
    hide LastSegment, FirstSegment, MacPrefix, MacFolder, LitterName, DsStore;
  }

  /** raw is kept, with every path behind the folder's name. */
  ghost predicate Behind(folder: seq<byte>, raw: Files, kept: Files) {
    && (forall name :: name in raw ==> Under(folder, name))
    && (forall path :: folder + [Slash()] + path in raw <==> path in kept)
    && (forall path :: path in kept ==> raw[folder + [Slash()] + path] == kept[path])
  }

  lemma BehindGrows(folder: seq<byte>, raw: Files, kept: Files, path: seq<byte>, text: seq<byte>)
    requires Behind(folder, raw, kept)
    ensures Behind(folder, Assign(raw, folder + [Slash()] + path, text), kept[path := text])
  {
    var name := folder + [Slash()] + path;
    MacNames();
    assert name[|folder|] == Slash();
    assert name != ProtoName();
    forall p
      ensures folder + [Slash()] + p == name <==> p == path
    {
      assert (folder + [Slash()] + p)[|folder| + 1..] == p && name[|folder| + 1..] == path;
    }
  }

  /** These members are those files, however they are packed. */
  ghost predicate Carries(folder: seq<byte>, files: seq<File>, ms: seq<ZipPack.Member>) {
    |ms| == |files| && forall k :: 0 <= k < |files| ==> ms[k].name == NameIn(folder, files[k]) && ms[k].content == files[k].content
  }

  /** The entries of the first n members. */
  function EntriesTo(lib: Library, ms: seq<ZipPack.Member>, n: nat): seq<Entry>
    requires n <= |ms|
  {
    Somes(ZipPack.Items(lib, ms, n))
  }

  lemma {:induction false} CollectedBehind(lib: Library, folder: seq<byte>, files: seq<File>, ms: seq<ZipPack.Member>, n: nat)
    requires Accepted(lib, folder, files) && Carries(folder, files, ms) && n <= |files| == |ms|
    ensures Behind(folder, Collected(EntriesTo(lib, ms, n)), Kept(folder, files, n))
  {
    hide *;
    if n > 0 {
      CollectedBehind(lib, folder, files, ms, n - 1);
      PathFacts(lib, folder, files, n - 1);
      SkippedWhen(folder, files[n - 1]);
      EntriesStep(lib, ms, n);
      EntryCarries(lib, folder, files, ms, n - 1);
      KeptStep(folder, files, n);
      var before := EntriesTo(lib, ms, n - 1);
      if !Dropped(folder, files[n - 1]) {
        SumsGrow(before, ZipPack.EntryOf(lib, ms[n - 1], |ZipPack.Locals(ms, n - 1)|));
        BehindGrows(folder, Collected(before), Kept(folder, files, n - 1), files[n - 1].path, WithoutMark(files[n - 1].content));
      }
    } else {
      NothingBehind(lib, folder, files, ms);
    }
  }

  lemma PathFacts(lib: Library, folder: seq<byte>, files: seq<File>, k: nat)
    requires Accepted(lib, folder, files) && k < |files|
    ensures NoSlash(folder) && |files[k].path| > 0 && files[k].path[|files[k].path| - 1] != Slash()
    ensures lib.isUtf8(NameIn(folder, files[k])) && lib.isUtf8(files[k].content) && |files[k].content| <= 262144
  {
    hide NameIn;
  }

  lemma NothingBehind(lib: Library, folder: seq<byte>, files: seq<File>, ms: seq<ZipPack.Member>)
    ensures Behind(folder, Collected(EntriesTo(lib, ms, 0)), Kept(folder, files, 0))
  {
  }

  lemma EntriesStep(lib: Library, ms: seq<ZipPack.Member>, n: nat)
    requires 0 < n <= |ms|
    ensures EntriesTo(lib, ms, n) ==
      var before, e := EntriesTo(lib, ms, n - 1), ZipPack.EntryOf(lib, ms[n - 1], |ZipPack.Locals(ms, n - 1)|);
      if Skipped(lib.Name(ms[n - 1].name)) then before else before + [e]
  {
    var item := if Skipped(lib.Name(ms[n - 1].name)) then None
                else Some(ZipPack.EntryOf(lib, ms[n - 1], |ZipPack.Locals(ms, n - 1)|));
    ZipPack.ItemsStep(lib, ms, n);
    SomesGrow(ZipPack.Items(lib, ms, n - 1), item);
    hide Skipped, Somes, ZipPack.Items, ZipPack.EntryOf, ZipPack.Locals;
  }

  lemma {:induction false} EntryCarries(lib: Library, folder: seq<byte>, files: seq<File>, ms: seq<ZipPack.Member>, k: nat)
    requires Carries(folder, files, ms) && k < |files| == |ms| && lib.isUtf8(NameIn(folder, files[k]))
    ensures lib.Name(ms[k].name) == NameIn(folder, files[k])
    ensures var e := ZipPack.EntryOf(lib, ms[k], |ZipPack.Locals(ms, k)|);
      e.name == folder + [Slash()] + files[k].path && e.text == WithoutMark(files[k].content)
  {
    MemberNamed(lib, folder, files[k], ms[k], |ZipPack.Locals(ms, k)|);
  }

  lemma MemberNamed(lib: Library, folder: seq<byte>, f: File, m: ZipPack.Member, local: nat)
    requires m.name == NameIn(folder, f) && m.content == f.content && lib.isUtf8(m.name)
    ensures lib.Name(m.name) == m.name
    ensures var e := ZipPack.EntryOf(lib, m, local);
      e.name == folder + [Slash()] + f.path && e.text == WithoutMark(f.content)
  {
  }

  lemma KeptStep(folder: seq<byte>, files: seq<File>, n: nat)
    requires 0 < n <= |files|
    ensures Kept(folder, files, n) ==
      var before, f := Kept(folder, files, n - 1), files[n - 1];
      if Dropped(folder, f) then before else before[f.path := WithoutMark(f.content)]
  {
    hide Dropped, WithoutMark;
  }

  /** Taking the folder off again. */
  lemma UnwrapBehind(folder: seq<byte>, raw: Files, kept: Files)
    requires NoSlash(folder) && Behind(folder, raw, kept)
    ensures Finished(raw) == kept - {ProtoName()}
  {
    if |raw| == 0 {
      assert forall path :: path !in kept;
      assert kept == map[];
    } else {
      MacNames();
      assert SkillName() !in raw by {
        SlashUnder(folder, SkillName());
        hide SkillName, SkillFile;
      }
      UnwrappedIs(raw, folder, kept - {ProtoName()});
    }
  }

  // ----- Reading a folder back -----

  function StoredTotal(ms: seq<ZipPack.Member>, n: nat): nat
    requires n <= |ms|
  {
    if n == 0 then 0 else StoredTotal(ms, n - 1) + |ms[n - 1].stored|
  }

  /** The entries' sizes are no more than the contents' and their ranges no more than what is stored. */
  lemma {:induction false} EntriesSmall(lib: Library, folder: seq<byte>, files: seq<File>, ms: seq<ZipPack.Member>, n: nat)
    requires Carries(folder, files, ms) && n <= |files| == |ms|
    ensures Total(EntriesTo(lib, ms, n)) <= ContentTotal(files, n)
    ensures Compressed(EntriesTo(lib, ms, n)) <= StoredTotal(ms, n)
  {
    hide *;
    if n == 0 {
      NothingSums(lib, ms);
    } else {
      EntriesSmall(lib, folder, files, ms, n - 1);
      EntriesStep(lib, ms, n);
      TotalsMore(folder, files, ms, n);
      EntrySizes(lib, ms[n - 1], |ZipPack.Locals(ms, n - 1)|);
      OneMore(EntriesTo(lib, ms, n - 1), ZipPack.EntryOf(lib, ms[n - 1], |ZipPack.Locals(ms, n - 1)|));
    }
  }

  lemma NothingSums(lib: Library, ms: seq<ZipPack.Member>)
    ensures EntriesTo(lib, ms, 0) == [] && Total([]) == 0 && Compressed([]) == 0
  {
  }

  lemma TotalsMore(folder: seq<byte>, files: seq<File>, ms: seq<ZipPack.Member>, n: nat)
    requires Carries(folder, files, ms) && 0 < n <= |files| == |ms|
    ensures ContentTotal(files, n) == ContentTotal(files, n - 1) + |ms[n - 1].content|
    ensures StoredTotal(ms, n) == StoredTotal(ms, n - 1) + |ms[n - 1].stored|
  {
    hide NameIn;
  }

  lemma EntrySizes(lib: Library, m: ZipPack.Member, local: nat)
    ensures var e := ZipPack.EntryOf(lib, m, local); e.size == |m.content| && e.end - e.start == |m.stored|
  {
  }

  /** The folder's files as members that the format can hold: each stored as it is, or deflated so that inflating within
      one byte more than its size gives it back; at most 1 MiB as stored; and the archive itself short enough. */
  ghost predicate PackedFrom(lib: Library, folder: seq<byte>, files: seq<File>, ms: seq<ZipPack.Member>, rest: ZipPack.Rest) {
    && Carries(folder, files, ms)
    && (forall k :: 0 <= k < |ms| ==> ZipPack.Shaped(ms[k]) && ZipPack.Sincere(lib, ms[k]))
    && StoredTotal(ms, |ms|) <= 1048576
    && |ZipPack.Locals(ms, |ms|)| < 0xffff_ffff && |ZipPack.Centrals(lib, ms, |ms|)| < 0x1_0000_0000
    && |rest.disks| == 6 && |rest.comment| < 0x1_0000
    && ZipPack.LastEnd(ZipPack.Pack(lib, ms, rest), ZipPack.EndOf(lib, ms))
  }

  lemma FolderPackable(lib: Library, folder: seq<byte>, files: seq<File>, ms: seq<ZipPack.Member>, rest: ZipPack.Rest)
    requires Accepted(lib, folder, files) && PackedFrom(lib, folder, files, ms, rest)
    ensures ZipPack.Packable(lib, ms) && ZipPack.Entries(lib, ms) == EntriesTo(lib, ms, |ms|)
  {
    hide Carries, ZipPack.Locals, ZipPack.Centrals, ZipPack.Pack, Total, Compressed, NameIn, ZipPack.Shaped, ZipPack.Sincere, Skipped;
    assert |ms| == |files| by { CarriesLength(folder, files, ms); }
    EntriesSmall(lib, folder, files, ms, |files|);
    hide ContentTotal, StoredTotal, Somes, ZipPack.Items, DistinctPaths;
  }

  lemma CarriesLength(folder: seq<byte>, files: seq<File>, ms: seq<ZipPack.Member>)
    requires Carries(folder, files, ms)
    ensures |ms| == |files|
  {
  }

  /** However its files are packed, reading an archive of a folder gives every file that is not dropped, under its own
      path, but none called `__proto__` at the top, and without byte order marks. */
  lemma PackedRoundTrip(lib: Library, folder: seq<byte>, files: seq<File>, ms: seq<ZipPack.Member>, rest: ZipPack.Rest)
    requires Accepted(lib, folder, files) && PackedFrom(lib, folder, files, ms, rest)
    ensures ReadArchive(lib, ZipPack.Pack(lib, ms, rest)) == Ok(Survivors(folder, files))
  {
    FolderPackable(lib, folder, files, ms, rest);
    hide Accepted, ZipPack.Packable, ZipPack.LastEnd, Carries, Behind, ReadArchive, ZipPack.Pack, Collected, Kept, ZipPack.Shaped,
         ZipPack.Sincere, ZipPack.Locals, ZipPack.Centrals, StoredTotal, EntriesTo, ZipPack.Entries;
    CarriesLength(folder, files, ms);
    ZipPack.PackRead(lib, ms, rest);
    CollectedBehind(lib, folder, files, ms, |files|);
    FolderPlain(lib, folder, files);
    UnwrapBehind(folder, Collected(EntriesTo(lib, ms, |files|)), Kept(folder, files, |files|));
  }

  lemma FolderPlain(lib: Library, folder: seq<byte>, files: seq<File>)
    requires Accepted(lib, folder, files)
    ensures NoSlash(folder)
  {
    hide NameIn;
  }

  lemma WrittenCarries(lib: Library, folder: seq<byte>, files: seq<File>)
    ensures Carries(folder, files, Members(lib, folder, files))
  {
    hide NameIn, Shared;
  }

  lemma WrittenMember(lib: Library, folder: seq<byte>, files: seq<File>, k: nat)
    requires Accepted(lib, folder, files) && ShortNames(folder, files) && k < |files|
    ensures ZipPack.Shaped(Members(lib, folder, files)[k]) && ZipPack.Sincere(lib, Members(lib, folder, files)[k])
  {
    PathFacts(lib, folder, files, k);
    hide NameIn, Shared, Accepted;
  }

  lemma {:induction false} WrittenTotal(lib: Library, folder: seq<byte>, files: seq<File>, n: nat)
    requires n <= |files|
    ensures StoredTotal(Members(lib, folder, files), n) == ContentTotal(files, n)
  {
    hide NameIn, Shared;
    if n > 0 { WrittenTotal(lib, folder, files, n - 1); }
  }

  lemma WrittenIsPacked(lib: Library, folder: seq<byte>, files: seq<File>)
    requires Accepted(lib, folder, files) && ShortNames(folder, files)
    ensures PackedFrom(lib, folder, files, Members(lib, folder, files), Rest(|files|))
  {
    hide Carries, ZipPack.Locals, ZipPack.Centrals, Locals, Centrals, ZipPack.Pack, Members, ZipPack.Shaped, ZipPack.Sincere, Shared,
         ShortNames, ContentTotal, StoredTotal, NameIn;
    var ms := Members(lib, folder, files);
    WrittenCarries(lib, folder, files);
    forall k | 0 <= k < |ms|
      ensures ZipPack.Shaped(ms[k]) && ZipPack.Sincere(lib, ms[k])
    {
      WrittenMember(lib, folder, files, k);
    }
    WrittenTotal(lib, folder, files, |files|);
    RecordsArePacked(lib, folder, files, |files|);
    WritableWhen(lib, folder, files);
    WritableEnds(lib, folder, files);
    ZipPack.PackLength(lib, ms, Rest(|files|));
  }

  /** A written archive is read as the entries of its files. */
  lemma ArchiveRead(lib: Library, folder: seq<byte>, files: seq<File>)
    requires Accepted(lib, folder, files) && ShortNames(folder, files)
    ensures ReadArchive(lib, Archive(lib, folder, files))
      == Ok(Finished(Collected(ZipPack.Entries(lib, Members(lib, folder, files)))))
  {
    WrittenIsPacked(lib, folder, files);
    FolderPackable(lib, folder, files, Members(lib, folder, files), Rest(|files|));
    hide ReadArchive, Archive, ZipPack.Pack, ZipPack.Packable, ZipPack.LastEnd, Carries, Members, Accepted, ShortNames, Finished,
         Collected, ZipPack.Entries, ZipPack.Locals, ZipPack.Centrals, StoredTotal, ZipPack.Shaped, ZipPack.Sincere;
    ArchiveIsPack(lib, folder, files);
    ZipPack.PackRead(lib, Members(lib, folder, files), Rest(|files|));
  }

  /** Reading back a written folder: every file that is not dropped, under its own path, but
      none called `__proto__` at the top, and without byte order marks. */
  lemma RoundTrip(lib: Library, folder: seq<byte>, files: seq<File>)
    requires Accepted(lib, folder, files) && ShortNames(folder, files)
    ensures ReadArchive(lib, Archive(lib, folder, files)) == Ok(Survivors(folder, files))
  {
    hide *;
    WrittenIsPacked(lib, folder, files);
    ArchiveIsPack(lib, folder, files);
    PackedRoundTrip(lib, folder, files, Members(lib, folder, files), Rest(|files|));
  }

  // ----- When nothing is lost -----

  /** A file that comes back as it was. */
  predicate Safe(folder: seq<byte>, f: File) {
    !Dropped(folder, f) && f.path != ProtoName() && !HasMark(f.content)
  }

  lemma {:induction false} KeptIs(folder: seq<byte>, files: seq<File>, n: nat)
    requires n <= |files| && DistinctPaths(files)
    ensures forall path :: path in Original(files, n) <==> exists i :: 0 <= i < n && files[i].path == path
    ensures forall i :: 0 <= i < n ==> Original(files, n)[files[i].path] == files[i].content
    ensures forall path :: path in Kept(folder, files, n) ==> path in Original(files, n)
    ensures forall i :: 0 <= i < n ==> (files[i].path in Kept(folder, files, n) <==> !Dropped(folder, files[i]))
    ensures forall i :: 0 <= i < n && !Dropped(folder, files[i]) ==>
      Kept(folder, files, n)[files[i].path] == WithoutMark(files[i].content)
  {
    hide Dropped, WithoutMark;
    if n > 0 {
      KeptIs(folder, files, n - 1);
    }
  }

  /** Every file comes back as it was. */
  ghost predicate AllSafe(folder: seq<byte>, files: seq<File>) {
    forall i :: 0 <= i < |files| ==> Safe(folder, files[i])
  }

  lemma {:induction false} SafeKept(folder: seq<byte>, files: seq<File>, n: nat)
    requires AllSafe(folder, files) && n <= |files|
    ensures Kept(folder, files, n) == Original(files, n)
    ensures ProtoName() !in Kept(folder, files, n)
  {
    hide Dropped, ProtoName;
    if n > 0 {
      SafeKept(folder, files, n - 1);
      assert Safe(folder, files[n - 1]);
    }
  }

  lemma UnsafeLost(folder: seq<byte>, files: seq<File>, i: nat)
    requires DistinctPaths(files) && i < |files| && !Safe(folder, files[i])
    ensures Survivors(folder, files) != Original(files, |files|)
  {
    KeptIs(folder, files, |files|);
    var path := files[i].path;
    var back, given := Survivors(folder, files), Original(files, |files|);
    hide Kept, Original, Dropped, ProtoName;
    assert path in given && given[path] == files[i].content;
    assert path in back ==> |back[path]| < |given[path]|;
  }

  lemma SurvivorsExact(folder: seq<byte>, files: seq<File>)
    requires DistinctPaths(files)
    ensures Survivors(folder, files) == Original(files, |files|) <==> AllSafe(folder, files)
  {
    hide Kept, Original, DistinctPaths, Safe, ProtoName;
    if AllSafe(folder, files) {
      SafeKept(folder, files, |files|);
    } else {
      var i :| 0 <= i < |files| && !Safe(folder, files[i]);
      UnsafeLost(folder, files, i);
    }
  }

  /** The folder comes back exactly as it was written if and only if each of its files is safe. */
  lemma RoundTripExact(lib: Library, folder: seq<byte>, files: seq<File>)
    requires Accepted(lib, folder, files) && ShortNames(folder, files)
    ensures ReadArchive(lib, Archive(lib, folder, files)) == Ok(Original(files, |files|)) <==> AllSafe(folder, files)
  {
    hide NameIn, DistinctPaths, AllSafe, Survivors, Original, ReadArchive, Archive;
    assert DistinctPaths(files);
    hide *;
    RoundTrip(lib, folder, files);
    SurvivorsExact(folder, files);
  }

  /** A folder that is accepted and does not come back: its one file is named as an object's prototype is. */
  lemma ProtoFileLost(lib: Library)
    requires lib.isUtf8([]) && lib.isUtf8(Ascii("a/") + ProtoName())
    ensures var folder, files := Ascii("a"), [File(ProtoName(), [])];
            && Accepted(lib, folder, files) && ShortNames(folder, files)
            && ReadArchive(lib, Archive(lib, folder, files)) == Ok(map[])
            && Original(files, 1) == map[ProtoName() := []]
  {
    hide ReadArchive, Archive;
    var folder, files := Ascii("a"), [File(ProtoName(), [])];
    assert NameIn(folder, files[0]) == Ascii("a/") + ProtoName();
    assert ContentTotal(files, 1) == 0;
    RoundTrip(lib, folder, files);
    hide Dropped;
    assert Kept(folder, files, 0) == map[];
    assert Survivors(folder, files) == map[];
  }

  // ----- Folders of the kind the service keeps -----

  function Skill(content: seq<byte>): File {
    File(SkillName(), content)
  }

  /** x/.DS_Store */
  function Litter(): File {
    File([0x78] + [Slash()] + LitterName(), [])
  }

  lemma LastOf(p: seq<byte>)
    requires NoSlash(p)
    ensures LastSegment(p) == p
    decreases |p|
  {
    if |p| > 0 {
      assert p[|p| - 1] in p;
      LastOf(p[..|p| - 1]);
    }
  }

  lemma SkillNames()
    ensures NoSlash(SkillName()) && NoSlash(LitterName()) && SkillName() != LitterName() && SkillName() != ProtoName()
    ensures |SkillName()| == 8 && |Litter().path| == 11 && MacFolder() != Ascii("a") && NoSlash(Ascii("a"))
    ensures Litter().path[10] != Slash() && SkillName()[7] != Slash()
  {
  }

  lemma DroppedNames(content: seq<byte>)
    ensures !Dropped(Ascii("a"), Skill(content)) && Dropped(Ascii("a"), Litter())
  {
    SkillNames();
    LastOf(SkillName());
    LastOf(LitterName());
    LastSegmentBehind([0x78], LitterName());
    hide SkillName, LitterName, MacFolder, LastSegment;
  }

  /** A folder with a SKILL.md and, beside it, x/.DS_Store comes back without the latter. */
  lemma LitterLost(lib: Library, content: seq<byte>)
    requires |content| <= 262144 && !HasMark(content)
    requires lib.isUtf8(content) && lib.isUtf8([])
    requires lib.isUtf8(NameIn(Ascii("a"), Skill(content))) && lib.isUtf8(NameIn(Ascii("a"), Litter()))
    ensures var folder, files := Ascii("a"), [Skill(content), Litter()];
            && Accepted(lib, folder, files) && ShortNames(folder, files)
            && ReadArchive(lib, Archive(lib, folder, files)) == Ok(map[SkillName() := content])
            && Original(files, 2) == map[SkillName() := content, Litter().path := []]
  {
    hide ReadArchive, Archive, SkillName, LitterName, Dropped, ProtoName;
    var folder, files := Ascii("a"), [Skill(content), Litter()];
    SkillNames();
    assert ContentTotal(files, 0) == 0 && ContentTotal(files, 1) == |content| && ContentTotal(files, 2) == |content|;
    RoundTrip(lib, folder, files);
    DroppedNames(content);
    assert Kept(folder, files, 0) == map[];
    assert Kept(folder, files, 1) == map[SkillName() := content];
    assert Kept(folder, files, 2) == map[SkillName() := content];
    assert Survivors(folder, files) == map[SkillName() := content];
    assert Original(files, 1) == map[SkillName() := content];
  }

  /** A SKILL.md that begins with a byte order mark comes back without it. */
  lemma MarkLost(lib: Library, content: seq<byte>)
    requires |content| <= 262144 && HasMark(content)
    requires lib.isUtf8(content) && lib.isUtf8(NameIn(Ascii("a"), Skill(content)))
    ensures var folder, files := Ascii("a"), [Skill(content)];
            && Accepted(lib, folder, files) && ShortNames(folder, files)
            && ReadArchive(lib, Archive(lib, folder, files)) == Ok(map[SkillName() := content[3..]])
            && Original(files, 1) == map[SkillName() := content]
  {
    hide ReadArchive, Archive, SkillName, LitterName, Dropped, ProtoName;
    var folder, files := Ascii("a"), [Skill(content)];
    SkillNames();
    assert ContentTotal(files, 1) == |content|;
    RoundTrip(lib, folder, files);
    DroppedNames(content);
    assert Kept(folder, files, 0) == map[];
    assert Kept(folder, files, 1) == map[SkillName() := content[3..]];
    assert Survivors(folder, files) == map[SkillName() := content[3..]];
  }

  /** a/SKILL.md, deflated, as an archiver that writes sizes after the data has it: nothing but zeros in the local header. */
  function DeflatedSkill(content: seq<byte>, stored: seq<byte>): ZipPack.Member {
    ZipPack.Member(NameIn(Ascii("a"), Skill(content)), content, 8, 8, stored, Zeros(22), [], [],
                   [20, 3, 20, 0], Zeros(4), Zeros(8), [], [])
  }

  lemma DeflatedShape(lib: Library, content: seq<byte>, stored: seq<byte>)
    requires |content| <= 262144 && |stored| <= 1048576 && lib.inflate(stored, |content| + 1) == Some(content)
    requires lib.isUtf8(content)
    ensures var m := DeflatedSkill(content, stored);
      && ZipPack.Shaped(m) && ZipPack.Sincere(lib, m)
      && |ZipPack.LocalPart(m)| == 40 + |stored| && |ZipPack.CentralPart(lib, m, 0)| == 56
  {
    SkillNames();
    hide SkillName, Little16, Little32;
    var m := DeflatedSkill(content, stored);
    assert |m.name| == 10;
    ZipPack.CentralLength(lib, m, 0);
    hide ZipPack.CentralPart;
  }

  lemma OneMember(lib: Library, m: ZipPack.Member)
    ensures ZipPack.Locals([m], 1) == ZipPack.LocalPart(m) && ZipPack.Centrals(lib, [m], 1) == ZipPack.CentralPart(lib, m, 0)
    ensures StoredTotal([m], 1) == |m.stored|
  {
    hide ZipPack.LocalPart, ZipPack.CentralPart;
    assert ZipPack.Locals([m], 0) == [] && ZipPack.Centrals(lib, [m], 0) == [] && StoredTotal([m], 0) == 0;
  }

  lemma SkillAccepted(lib: Library, content: seq<byte>)
    requires |content| <= 262144 && lib.isUtf8(content) && lib.isUtf8(NameIn(Ascii("a"), Skill(content)))
    ensures Accepted(lib, Ascii("a"), [Skill(content)])
  {
    SkillNames();
    hide SkillName;
    assert ContentTotal([Skill(content)], 1) == |content|;
  }

  /** A folder with one deflated SKILL.md reads as that file, whenever inflating within one byte more than its size gives it
      back. */
  lemma DeflatedRead(lib: Library, content: seq<byte>, stored: seq<byte>)
    requires |content| <= 262144 && |stored| <= 1048576 && lib.inflate(stored, |content| + 1) == Some(content)
    requires lib.isUtf8(content) && lib.isUtf8(NameIn(Ascii("a"), Skill(content))) && !HasMark(content)
    ensures ReadArchive(lib, ZipPack.Pack(lib, [DeflatedSkill(content, stored)], Rest(1))) == Ok(map[SkillName() := content])
  {
    hide *;
    var ms := [DeflatedSkill(content, stored)];
    SkillAccepted(lib, content);
    DeflatedPacked(lib, content, stored);
    PackedRoundTrip(lib, Ascii("a"), [Skill(content)], ms, Rest(1));
    SkillSurvives(content);
  }

  lemma DeflatedPacked(lib: Library, content: seq<byte>, stored: seq<byte>)
    requires |content| <= 262144 && |stored| <= 1048576 && lib.inflate(stored, |content| + 1) == Some(content)
    requires lib.isUtf8(content)
    ensures PackedFrom(lib, Ascii("a"), [Skill(content)], [DeflatedSkill(content, stored)], Rest(1))
  {
    var folder, files, ms := Ascii("a"), [Skill(content)], [DeflatedSkill(content, stored)];
    DeflatedShape(lib, content, stored);
    OneMember(lib, ms[0]);
    ZipPack.PackLength(lib, ms, Rest(1));
    hide ZipPack.Shaped, ZipPack.Sincere, ZipPack.LocalPart, ZipPack.CentralPart, ZipPack.Locals, ZipPack.Centrals, ZipPack.Pack,
         StoredTotal, SkillName;
    assert Carries(folder, files, ms);
  }

  lemma SkillSurvives(content: seq<byte>)
    requires !HasMark(content)
    ensures Survivors(Ascii("a"), [Skill(content)]) == map[SkillName() := content]
  {
    hide SkillName, LitterName, ProtoName, Dropped;
    var folder, files := Ascii("a"), [Skill(content)];
    SkillNames();
    DroppedNames(content);
    assert Kept(folder, files, 0) == map[];
    assert Kept(folder, files, 1) == map[SkillName() := content];
  }
}
