/** The zip archive of a skill folder: its three kinds of record, and the writer. */
module ZipFormat {
  import opened Options
  import opened Buffers

  /** What the code takes from its runtime: the checksum, inflation with an output limit, which
      byte strings are UTF-8, and how a name that is not gets decoded all the same. */
  datatype Library = Library(
    crc32: seq<byte> -> nat,
    inflate: (seq<byte>, nat) -> Option<seq<byte>>,
    isUtf8: seq<byte> -> bool,
    lossy: seq<byte> -> seq<byte>
  ) {
    function Crc(data: seq<byte>): (c: nat)
      ensures c < 0x1_0000_0000
    {
      crc32(data) % 0x1_0000_0000
    }

    /** A name's text: its bytes where they are UTF-8. */
    function Name(bytes: seq<byte>): seq<byte> {
      if isUtf8(bytes) then bytes else lossy(bytes)
    }

    /** A file's text as the strict decoder gives it: nothing for other bytes, and without
        the mark it takes off the front. */
    function Text(bytes: seq<byte>): Option<seq<byte>> {
      if isUtf8(bytes) then Some(WithoutMark(bytes)) else None
    }
  }

  predicate HasMark(bytes: seq<byte>) {
    |bytes| >= 3 && bytes[0] == 0xef && bytes[1] == 0xbb && bytes[2] == 0xbf
  }

  /** Text without a byte order mark. */
  function WithoutMark(bytes: seq<byte>): seq<byte> {
    if HasMark(bytes) then bytes[3..] else bytes
  }

  /** A file of the folder: its path inside it and its content. */
  datatype File = File(path: seq<byte>, content: seq<byte>)

  const LOCAL := 0x0403_4b50
  const CENTRAL := 0x0201_4b50
  const END := 0x0605_4b50
  const DATE := 0x21

  function Slash(): byte { 0x2f }

  function NameIn(folder: seq<byte>, f: File): seq<byte> {
    folder + [Slash()] + f.path
  }

  // ----- Records (PKWARE APPNOTE 4.3.7, 4.3.12, 4.3.16) -----

  /** What a file's two headers have in common: version needed, flags (the name is UTF-8), method, time, date,
      checksum, both sizes, and the lengths of name and extra field. */
  function Shared(lib: Library, name: seq<byte>, data: seq<byte>): (h: seq<byte>)
    ensures |h| == 26
  {
    [20, 0, 0x00, 0x08, 0, 0, 0, 0, 0x21, 0x00]
    + Little32(lib.Crc(data)) + Little32(|data|) + Little32(|data|) + Little16(|name|) + [0, 0]
  }

  function LocalHeader(lib: Library, name: seq<byte>, data: seq<byte>): (h: seq<byte>)
    ensures |h| == 30
  {
    [0x50, 0x4b, 0x03, 0x04] + Shared(lib, name, data)
  }

  /** Beside what is shared: the version made by; the lengths of comment, disk number and attributes, all zero; and where
      the local header is. */
  function CentralHeader(lib: Library, name: seq<byte>, data: seq<byte>, offset: nat): (h: seq<byte>)
    ensures |h| == 46
  {
    [0x50, 0x4b, 0x01, 0x02] + [20, 0] + Shared(lib, name, data) + Zeros(10) + Little32(offset)
  }

  /** Number of this disk and of the directory's, entries on this disk and in all, size and place of the directory,
      no comment. */
  function EndRecord(count: nat, size: nat, offset: nat): (h: seq<byte>)
    ensures |h| == 22
  {
    [0x50, 0x4b, 0x05, 0x06] + Zeros(4) + Little16(count) + Little16(count) + Little32(size) + Little32(offset) + Zeros(2)
  }

  // ----- The archive -----

  function LocalRecord(lib: Library, folder: seq<byte>, f: File): (r: seq<byte>)
    ensures |r| == 30 + |NameIn(folder, f)| + |f.content|
  {
    LocalHeader(lib, NameIn(folder, f), f.content) + NameIn(folder, f) + f.content
  }

  /** The local records of the first n files. */
  function Locals(lib: Library, folder: seq<byte>, files: seq<File>, n: nat): seq<byte>
    requires n <= |files|
  {
    if n == 0 then [] else Locals(lib, folder, files, n - 1) + LocalRecord(lib, folder, files[n - 1])
  }

  function CentralRecord(lib: Library, folder: seq<byte>, files: seq<File>, k: nat): (r: seq<byte>)
    requires k < |files|
    ensures |r| == 46 + |NameIn(folder, files[k])|
  {
    CentralHeader(lib, NameIn(folder, files[k]), files[k].content, |Locals(lib, folder, files, k)|) + NameIn(folder, files[k])
  }

  /** The directory entries of the first n files. */
  function Centrals(lib: Library, folder: seq<byte>, files: seq<File>, n: nat): seq<byte>
    requires n <= |files|
  {
    if n == 0 then [] else Centrals(lib, folder, files, n - 1) + CentralRecord(lib, folder, files, n - 1)
  }

  function Archive(lib: Library, folder: seq<byte>, files: seq<File>): seq<byte> {
    var locals, centrals := Locals(lib, folder, files, |files|), Centrals(lib, folder, files, |files|);
    locals + centrals + EndRecord(|files|, |centrals|, |locals|)
  }

  /** Every number fits the field it is written to; elsewhere the runtime throws. */
  ghost predicate Writable(lib: Library, folder: seq<byte>, files: seq<File>) {
    && |files| < 0x1_0000
    && (forall i :: 0 <= i < |files| ==> |NameIn(folder, files[i])| < 0x1_0000)
    && |Locals(lib, folder, files, |files|)| < 0x1_0000_0000
    && |Centrals(lib, folder, files, |files|)| < 0x1_0000_0000
  }

  lemma {:induction false} LocalsGrow(lib: Library, folder: seq<byte>, files: seq<File>, m: nat, n: nat)
    requires m <= n <= |files|
    ensures |Locals(lib, folder, files, m)| <= |Locals(lib, folder, files, n)|
    ensures m < n ==> |Locals(lib, folder, files, m)| + |files[m].content| <= |Locals(lib, folder, files, n)|
    ensures Locals(lib, folder, files, m) <= Locals(lib, folder, files, n)
  {
    if m < n {
      LocalsGrow(lib, folder, files, m, n - 1);
    }
  }

  /** The archive of a folder whose files are already in the order they are to be written;
      nothing where a number does not fit its field. */
  method WriteSkillZip(lib: Library, folder: seq<byte>, files: seq<File>) returns (r: Option<seq<byte>>)
    ensures r == if Writable(lib, folder, files) then Some(Archive(lib, folder, files)) else None
  {
    hide LocalHeader, CentralHeader, EndRecord;
    var locals: seq<byte>, centrals: seq<byte> := [], [];
    var offset := 0;
    for k := 0 to |files|
      invariant locals == Locals(lib, folder, files, k) && offset == |locals|
      invariant centrals == Centrals(lib, folder, files, k)
      invariant forall i :: 0 <= i < k ==> |NameIn(folder, files[i])| < 0x1_0000
    {
      var name, data := NameIn(folder, files[k]), files[k].content;
      LocalsGrow(lib, folder, files, k, |files|);
      if |name| >= 0x1_0000 || |data| >= 0x1_0000_0000 || offset >= 0x1_0000_0000 {
        return None;
      }
      var local := FillLocal(lib, name, data);
      var central := FillCentral(lib, name, data, offset);
      locals := locals + (local + name + data);
      centrals := centrals + (central + name);
      offset := offset + |local| + |name| + |data|;
    }
    var count := |files|;
    if count >= 0x1_0000 || |centrals| >= 0x1_0000_0000 || offset >= 0x1_0000_0000 {
      return None;
    }
    var end := FillEnd(count, |centrals|, offset);
    return Some(locals + centrals + end);
  }

  lemma Constants()
    ensures [] + Little32(LOCAL) == [0x50, 0x4b, 0x03, 0x04] && [] + Little32(CENTRAL) == [0x50, 0x4b, 0x01, 0x02]
    ensures [] + Little32(END) == [0x50, 0x4b, 0x05, 0x06] && Little16(20) == [20, 0] && Little16(0x0800) == [0x00, 0x08]
    ensures Little16(DATE) == [0x21, 0x00] && Little16(0) == [0, 0] == Zeros(2)
  {
  }

  lemma NoZeros()
    ensures forall s: seq<byte> :: s + Zeros(0) == s
  {
  }

  lemma HeadersAre(lib: Library, name: seq<byte>, data: seq<byte>, offset: nat)
    ensures LocalHeader(lib, name, data) == [0x50, 0x4b, 0x03, 0x04] + Shared(lib, name, data)
    ensures CentralHeader(lib, name, data, offset)
      == [0x50, 0x4b, 0x01, 0x02] + [20, 0] + Shared(lib, name, data) + Zeros(10) + Little32(offset)
  {
    hide Shared;
  }

  lemma EndIs(count: nat, size: nat, offset: nat)
    ensures EndRecord(count, size, offset) == [0x50, 0x4b, 0x05, 0x06] + Zeros(4) + Little16(count) + Little16(count)
      + Little32(size) + Little32(offset) + Zeros(2)
  {
  }

  lemma SharedIs(lib: Library, name: seq<byte>, data: seq<byte>, before: seq<byte>)
    ensures before + [20, 0] + [0x00, 0x08] + [0, 0] + [0, 0] + [0x21, 0x00] + Little32(lib.Crc(data)) + Little32(|data|)
      + Little32(|data|) + Little16(|name|) + [0, 0] == before + Shared(lib, name, data)
  {
    hide Little16, Little32;
  }

  method FillEnd(count: nat, size: nat, offset: nat) returns (record: seq<byte>)
    requires count < 0x1_0000 && size < 0x1_0000_0000 && offset < 0x1_0000_0000
    ensures record == EndRecord(count, size, offset)
  {
    var end := new byte[22](_ => 0);
    ghost var done: seq<byte> := [];
    assert end[..] == done + Zeros(22);
    hide *;
    Constants();
    EndIs(count, size, offset);
    done := Fill32(end, END, 0, done);
    ZerosSplit(done, 4, 14);
    done := done + Zeros(4);
    done := Fill16(end, count, 8, done);
    done := Fill16(end, count, 10, done);
    done := Fill32(end, size, 12, done);
    done := Fill32(end, offset, 16, done);
    record := end[..];
  }

  method FillLocal(lib: Library, name: seq<byte>, data: seq<byte>) returns (header: seq<byte>)
    requires |name| < 0x1_0000 && |data| < 0x1_0000_0000
    ensures header == LocalHeader(lib, name, data)
  {
    var local := new byte[30](_ => 0);
    ghost var done: seq<byte> := [];
    assert local[..] == done + Zeros(30);
    hide *;
    Constants();
    NoZeros();
    HeadersAre(lib, name, data, 0);
    SharedIs(lib, name, data, [0x50, 0x4b, 0x03, 0x04]);
    done := Fill32(local, LOCAL, 0, done);
    done := Fill16(local, 20, 4, done);
    done := Fill16(local, 0x0800, 6, done);
    done := Fill16(local, 0, 8, done);
    done := Fill16(local, 0, 10, done);
    done := Fill16(local, DATE, 12, done);
    done := Fill32(local, lib.Crc(data), 14, done);
    done := Fill32(local, |data|, 18, done);
    done := Fill32(local, |data|, 22, done);
    done := Fill16(local, |name|, 26, done);
    done := Fill16(local, 0, 28, done);
    header := local[..];
  }

  method FillCentral(lib: Library, name: seq<byte>, data: seq<byte>, offset: nat) returns (header: seq<byte>)
    requires |name| < 0x1_0000 && |data| < 0x1_0000_0000 && offset < 0x1_0000_0000
    ensures header == CentralHeader(lib, name, data, offset)
  {
    var central := new byte[46](_ => 0);
    ghost var done: seq<byte> := [];
    assert central[..] == done + Zeros(46);
    hide *;
    Constants();
    NoZeros();
    HeadersAre(lib, name, data, offset);
    SharedIs(lib, name, data, [0x50, 0x4b, 0x01, 0x02] + [20, 0]);
    done := Fill32(central, CENTRAL, 0, done);
    done := Fill16(central, 20, 4, done);
    done := Fill16(central, 20, 6, done);
    done := Fill16(central, 0x0800, 8, done);
    done := Fill16(central, 0, 10, done);
    done := Fill16(central, 0, 12, done);
    done := Fill16(central, DATE, 14, done);
    done := Fill32(central, lib.Crc(data), 16, done);
    done := Fill32(central, |data|, 20, done);
    done := Fill32(central, |data|, 24, done);
    done := Fill16(central, |name|, 28, done);
    ZerosSplit(done, 12, 4);
    ZerosSplit(done, 2, 10);
    done := done + Zeros(12);
    done := Fill32(central, offset, 42, done);
    header := central[..];
  }
}
