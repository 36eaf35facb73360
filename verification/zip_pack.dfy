/** Archives as other programs write them: stored and deflated members mixed, with extra fields, comments, data
    descriptors and whatever the reader does not look at; and what reading one gives. */
module ZipPack {
  import opened Options
  import opened Buffers
  import opened ZipFormat
  import opened ZipReader
  import opened ZipAccepted

  /** A member, with all that its two headers may carry besides: the rest of the local header, its extra field, what
      follows its data; versions, time and date, attributes, extra field and comment of its directory entry. */
  datatype Member = Member(
    name: seq<byte>, content: seq<byte>, flags: nat, zipMethod: nat, stored: seq<byte>,
    head: seq<byte>, localExtra: seq<byte>, descriptor: seq<byte>,
    versions: seq<byte>, stamp: seq<byte>, attributes: seq<byte>, extra: seq<byte>, comment: seq<byte>)

  predicate Shaped(m: Member) {
    && |m.head| == 22 && |m.versions| == 4 && |m.stamp| == 4 && |m.attributes| == 8
    && |m.name| < 0x1_0000 && |m.localExtra| < 0x1_0000 && |m.extra| < 0x1_0000 && |m.comment| < 0x1_0000
  }

  /** Not encrypted, stored or deflated so that inflating gives the content back, and text of at most 256 KiB. */
  predicate Sincere(lib: Library, m: Member) {
    && m.flags < 0x1_0000 && m.flags % 2 == 0
    && ((m.zipMethod == 0 && m.stored == m.content)
        || (m.zipMethod == 8 && lib.inflate(m.stored, |m.content| + 1) == Some(m.content)))
    && |m.content| <= 262144 && |m.stored| < 0x1_0000_0000 && lib.isUtf8(m.content)
  }

  predicate Left(lib: Library, m: Member) {
    Skipped(lib.Name(m.name))
  }

  // ----- Records -----

  function LocalPart(m: Member): seq<byte> {
    [0x50, 0x4b, 0x03, 0x04] + (m.head + (Little16(|m.name|) + (Little16(|m.localExtra|)
    + ((m.name + m.localExtra) + (m.stored + m.descriptor)))))
  }

  function Numbers(lib: Library, m: Member): seq<byte> {
    Little32(lib.Crc(m.content)) + (Little32(|m.stored|) + Little32(|m.content|))
  }

  function Lengths(m: Member): seq<byte> {
    Little16(|m.name|) + (Little16(|m.extra|) + Little16(|m.comment|))
  }

  function CentralPart(lib: Library, m: Member, local: nat): seq<byte> {
    [0x50, 0x4b, 0x01, 0x02] + (m.versions + (Little16(m.flags) + (Little16(m.zipMethod) + (m.stamp
    + (Numbers(lib, m) + (Lengths(m) + (m.attributes + (Little32(local) + (m.name + (m.extra + m.comment))))))))))
  }

  /** The records of the first n members. */
  function Locals(ms: seq<Member>, n: nat): seq<byte>
    requires n <= |ms|
  {
    if n == 0 then [] else Locals(ms, n - 1) + LocalPart(ms[n - 1])
  }

  function Centrals(lib: Library, ms: seq<Member>, n: nat): seq<byte>
    requires n <= |ms|
  {
    if n == 0 then [] else Centrals(lib, ms, n - 1) + CentralPart(lib, ms[n - 1], |Locals(ms, n - 1)|)
  }

  /** The rest of an end record: disk numbers and the count on this disk, and the archive's comment. */
  datatype Rest = Rest(disks: seq<byte>, comment: seq<byte>)

  function EndPart(count: nat, size: nat, start: nat, rest: Rest): seq<byte> {
    [0x50, 0x4b, 0x05, 0x06] + (rest.disks + (Little16(count) + (Little32(size) + (Little32(start)
    + (Little16(|rest.comment|) + rest.comment)))))
  }

  function Pack(lib: Library, ms: seq<Member>, rest: Rest): seq<byte> {
    var locals, centrals := Locals(ms, |ms|), Centrals(lib, ms, |ms|);
    locals + (centrals + EndPart(|ms|, |centrals|, |locals|, rest))
  }

  // ----- One member -----

  function EntryOf(lib: Library, m: Member, local: nat): Entry {
    var start := local + 30 + |m.name| + |m.localExtra|;
    Entry(lib.Name(m.name), start, start + |m.stored|, |m.content|, m.content, WithoutMark(m.content))
  }

  lemma CentralHolds(lib: Library, buf: seq<byte>, at: nat, m: Member, local: nat)
    requires Shaped(m) && Holds(buf, at, CentralPart(lib, m, local))
    ensures Holds(buf, at, [0x50, 0x4b, 0x01, 0x02]) && Holds(buf, at + 8, Little16(m.flags))
    ensures Holds(buf, at + 10, Little16(m.zipMethod)) && Holds(buf, at + 16, Numbers(lib, m))
    ensures Holds(buf, at + 28, Lengths(m)) && Holds(buf, at + 42, Little32(local)) && Holds(buf, at + 46, m.name)
  {
    hide Holds, Little16, Little32;
    var i := m.name + (m.extra + m.comment);
    var h := Little32(local) + i;
    var g := m.attributes + h;
    var f := Lengths(m) + g;
    var e := Numbers(lib, m) + f;
    var d := m.stamp + e;
    var c := Little16(m.zipMethod) + d;
    var b := Little16(m.flags) + c;
    HoldsParts(buf, at, [0x50, 0x4b, 0x01, 0x02], m.versions + b);
    HoldsParts(buf, at + 4, m.versions, b);
    HoldsParts(buf, at + 8, Little16(m.flags), c);
    HoldsParts(buf, at + 10, Little16(m.zipMethod), d);
    HoldsParts(buf, at + 12, m.stamp, e);
    HoldsParts(buf, at + 16, Numbers(lib, m), f);
    HoldsParts(buf, at + 28, Lengths(m), g);
    HoldsParts(buf, at + 34, m.attributes, h);
    HoldsParts(buf, at + 42, Little32(local), i);
    HoldsParts(buf, at + 46, m.name, m.extra + m.comment);
  }

  lemma LocalHolds(buf: seq<byte>, at: nat, m: Member)
    requires Shaped(m) && Holds(buf, at, LocalPart(m))
    ensures Holds(buf, at, [0x50, 0x4b, 0x03, 0x04]) && Holds(buf, at + 26, Little16(|m.name|))
    ensures Holds(buf, at + 28, Little16(|m.localExtra|)) && Holds(buf, at + 30 + |m.name| + |m.localExtra|, m.stored)
  {
    hide Holds, Little16;
    var d := m.stored + m.descriptor;
    var c := (m.name + m.localExtra) + d;
    var b := Little16(|m.localExtra|) + c;
    var a := Little16(|m.name|) + b;
    HoldsParts(buf, at, [0x50, 0x4b, 0x03, 0x04], m.head + a);
    HoldsParts(buf, at + 4, m.head, a);
    HoldsParts(buf, at + 26, Little16(|m.name|), b);
    HoldsParts(buf, at + 28, Little16(|m.localExtra|), c);
    HoldsParts(buf, at + 30, m.name + m.localExtra, d);
    HoldsParts(buf, at + 30 + |m.name| + |m.localExtra|, m.stored, m.descriptor);
  }

  lemma NumbersHold(lib: Library, buf: seq<byte>, at: nat, m: Member)
    requires Holds(buf, at + 16, Numbers(lib, m)) && Holds(buf, at + 28, Lengths(m))
    ensures Holds(buf, at + 16, Little32(lib.Crc(m.content))) && Holds(buf, at + 20, Little32(|m.stored|))
    ensures Holds(buf, at + 24, Little32(|m.content|)) && Holds(buf, at + 28, Little16(|m.name|))
    ensures Holds(buf, at + 30, Little16(|m.extra|)) && Holds(buf, at + 32, Little16(|m.comment|))
  {
    hide Holds, Little16, Little32;
    HoldsParts(buf, at + 16, Little32(lib.Crc(m.content)), Little32(|m.stored|) + Little32(|m.content|));
    HoldsParts(buf, at + 20, Little32(|m.stored|), Little32(|m.content|));
    HoldsParts(buf, at + 28, Little16(|m.name|), Little16(|m.extra|) + Little16(|m.comment|));
    HoldsParts(buf, at + 30, Little16(|m.extra|), Little16(|m.comment|));
  }

  function NextOf(at: nat, m: Member): nat {
    at + 46 + |m.name| + |m.extra| + |m.comment|
  }

  lemma MemberListed(lib: Library, buf: seq<byte>, at: nat, m: Member, local: nat)
    requires Shaped(m) && Holds(buf, at, CentralPart(lib, m, local))
    ensures Listed(lib, buf, at, NextOf(at, m), lib.Name(m.name))
  {
    CentralHolds(lib, buf, at, m, local);
    NumbersHold(lib, buf, at, m);
    NameSlice(buf, at + 46, m.name);
    hide Little16, Little32, Holds, Slice;
    assert Says16(buf, at, 28, |m.name|) && Says16(buf, at, 30, |m.extra|) && Says16(buf, at, 32, |m.comment|);
  }

  lemma NameSlice(buf: seq<byte>, at: nat, name: seq<byte>)
    requires Holds(buf, at, name)
    ensures Slice(buf, at, at + |name|) == name && at <= |buf|
  {
  }

  lemma MemberLocated(lib: Library, buf: seq<byte>, at: nat, m: Member, local: nat)
    requires Shaped(m) && local < 0x1_0000_0000
    requires Holds(buf, at, CentralPart(lib, m, local)) && Holds(buf, local, LocalPart(m))
    ensures Located(buf, at, local + 30 + |m.name| + |m.localExtra|)
  {
    CentralHolds(lib, buf, at, m, local);
    LocalHolds(buf, local, m);
    hide Little16, Little32, Holds, CentralPart, LocalPart;
    assert Says32(buf, at, 42, local) && Says16(buf, local, 26, |m.name|) && Says16(buf, local, 28, |m.localExtra|);
  }

  lemma MemberSays(lib: Library, buf: seq<byte>, at: nat, m: Member, local: nat)
    requires Shaped(m) && Sincere(lib, m) && Holds(buf, at, CentralPart(lib, m, local))
    ensures Says16(buf, at, 8, m.flags) && m.flags % 2 == 0
    ensures Means(lib, buf, at, m.stored, m.content)
    ensures Says32(buf, at, 16, lib.Crc(m.content)) && Says32(buf, at, 20, |m.stored|) && Says32(buf, at, 24, |m.content|)
  {
    CentralHolds(lib, buf, at, m, local);
    NumbersHold(lib, buf, at, m);
    hide Little16, Little32, Holds, CentralPart;
  }

  lemma MemberStored(buf: seq<byte>, local: nat, m: Member)
    requires Shaped(m) && Holds(buf, local, LocalPart(m))
    ensures var start := local + 30 + |m.name| + |m.localExtra|; start + |m.stored| <= |buf| && buf[start..start + |m.stored|] == m.stored
  {
    LocalHolds(buf, local, m);
    hide LocalPart, Holds;
    HeldIsSlice(buf, local + 30 + |m.name| + |m.localExtra|, m.stored);
  }

  lemma MemberDescribed(lib: Library, buf: seq<byte>, at: nat, m: Member, local: nat)
    requires Shaped(m) && Sincere(lib, m) && local < 0x1_0000_0000
    requires Holds(buf, at, CentralPart(lib, m, local)) && Holds(buf, local, LocalPart(m))
    ensures Describes(lib, buf, at, EntryOf(lib, m, local))
  {
    hide Holds, CentralPart, LocalPart, Says16, Says32, Means, Located, WithoutMark;
    MemberLocated(lib, buf, at, m, local);
    MemberSays(lib, buf, at, m, local);
    MemberStored(buf, local, m);
  }

  lemma HeldIsSlice(buf: seq<byte>, at: nat, part: seq<byte>)
    requires Holds(buf, at, part)
    ensures at + |part| <= |buf| && buf[at..at + |part|] == part
  {
  }

  // ----- Where the records are -----

  lemma {:induction false} LocalsHold(buf: seq<byte>, ms: seq<Member>, n: nat, k: nat)
    requires k < n <= |ms| && Holds(buf, 0, Locals(ms, n))
    ensures Holds(buf, |Locals(ms, k)|, LocalPart(ms[k]))
  {
    hide Holds, LocalPart;
    HoldsParts(buf, 0, Locals(ms, n - 1), LocalPart(ms[n - 1]));
    if k < n - 1 { LocalsHold(buf, ms, n - 1, k); }
  }

  lemma {:induction false} CentralsHold(lib: Library, buf: seq<byte>, at: nat, ms: seq<Member>, n: nat, k: nat)
    requires k < n <= |ms| && Holds(buf, at, Centrals(lib, ms, n))
    ensures Holds(buf, at + |Centrals(lib, ms, k)|, CentralPart(lib, ms[k], |Locals(ms, k)|))
  {
    hide Holds, CentralPart, Locals;
    HoldsParts(buf, at, Centrals(lib, ms, n - 1), CentralPart(lib, ms[n - 1], |Locals(ms, n - 1)|));
    if k < n - 1 { CentralsHold(lib, buf, at, ms, n - 1, k); }
  }

  lemma PackHolds(lib: Library, ms: seq<Member>, rest: Rest)
    ensures var buf, locals, centrals := Pack(lib, ms, rest), Locals(ms, |ms|), Centrals(lib, ms, |ms|);
      && Holds(buf, 0, locals) && Holds(buf, |locals|, centrals)
      && Holds(buf, |locals| + |centrals|, EndPart(|ms|, |centrals|, |locals|, rest))
  {
    hide *;
    PackIs(lib, ms, rest);
    ThreeHold(Pack(lib, ms, rest), Locals(ms, |ms|), Centrals(lib, ms, |ms|),
              EndPart(|ms|, |Centrals(lib, ms, |ms|)|, |Locals(ms, |ms|)|, rest));
  }

  lemma ThreeHold(buf: seq<byte>, a: seq<byte>, b: seq<byte>, c: seq<byte>)
    requires buf == a + (b + c)
    ensures Holds(buf, 0, a) && Holds(buf, |a|, b) && Holds(buf, |a| + |b|, c)
  {
    assert buf[|a|..|a| + |b|] == b && buf[|a| + |b|..] == c;
  }

  lemma PackIs(lib: Library, ms: seq<Member>, rest: Rest)
    ensures var locals, centrals := Locals(ms, |ms|), Centrals(lib, ms, |ms|);
      Pack(lib, ms, rest) == locals + (centrals + EndPart(|ms|, |centrals|, |locals|, rest))
  {
    hide Locals, Centrals, EndPart;
  }

  // ----- Reading it -----

  /** What the first n members come to: nothing for those the reader passes over. */
  function Items(lib: Library, ms: seq<Member>, n: nat): (items: seq<Option<Entry>>)
    requires n <= |ms|
    ensures |items| == n
  {
    if n == 0 then []
    else Items(lib, ms, n - 1) + [if Left(lib, ms[n - 1]) then None else Some(EntryOf(lib, ms[n - 1], |Locals(ms, n - 1)|))]
  }

  function Entries(lib: Library, ms: seq<Member>): seq<Entry> {
    Somes(Items(lib, ms, |ms|))
  }

  /** Where the directory entries of the first n members begin, and where the next one would. */
  function Ats(lib: Library, ms: seq<Member>, n: nat): (ats: seq<nat>)
    requires n <= |ms|
    ensures |ats| == n + 1 && ats[n] == |Locals(ms, |ms|)| + |Centrals(lib, ms, n)|
    ensures ats[0] == |Locals(ms, |ms|)|
  {
    (if n == 0 then [] else Ats(lib, ms, n - 1)) + [|Locals(ms, |ms|)| + |Centrals(lib, ms, n)|]
  }

  /** Members such that the reader has nothing against them. */
  ghost predicate Packable(lib: Library, ms: seq<Member>) {
    && |ms| <= 256 && |Locals(ms, |ms|)| < 0xffff_ffff && |Centrals(lib, ms, |ms|)| < 0x1_0000_0000
    && (forall k :: 0 <= k < |ms| ==> Shaped(ms[k]) && (Left(lib, ms[k]) || Sincere(lib, ms[k])))
    && Small(Entries(lib, ms))
  }

  lemma {:induction false} LocalsGrow(ms: seq<Member>, k: nat, n: nat)
    requires k <= n <= |ms|
    ensures |Locals(ms, k)| <= |Locals(ms, n)|
    ensures k < n && Shaped(ms[k]) ==>
      |Locals(ms, k)| + 30 + |ms[k].name| + |ms[k].localExtra| + |ms[k].stored| <= |Locals(ms, n)|
  {
    if k < n {
      LocalsGrow(ms, k, n - 1);
    }
  }

  /** The entries of the first n members end before the next local record. */
  ghost predicate Before(entries: seq<Entry>, place: nat) {
    forall i :: 0 <= i < |entries| ==> entries[i].end <= place
  }

  lemma ItemsStep(lib: Library, ms: seq<Member>, n: nat)
    requires 0 < n <= |ms|
    ensures Items(lib, ms, n)
      == Items(lib, ms, n - 1) + [if Left(lib, ms[n - 1]) then None else Some(EntryOf(lib, ms[n - 1], |Locals(ms, n - 1)|))]
    ensures Ats(lib, ms, n) == Ats(lib, ms, n - 1) + [|Locals(ms, |ms|)| + |Centrals(lib, ms, n)|]
  {
    hide Left, EntryOf, Locals, Centrals;
  }

  lemma BeforeMore(entries: seq<Entry>, place: nat, more: seq<Entry>, later: nat)
    requires Before(entries, place) && Before(more, later) && place <= later
    ensures Before(entries + more, later)
  {
  }

  lemma {:induction false} EntriesBefore(lib: Library, ms: seq<Member>, n: nat)
    requires n <= |ms| && forall k :: 0 <= k < |ms| ==> Shaped(ms[k])
    ensures Before(Somes(Items(lib, ms, n)), |Locals(ms, n)|)
  {
    if n > 0 {
      EntriesBefore(lib, ms, n - 1);
      LocalsGrow(ms, n - 1, n);
      var item := if Left(lib, ms[n - 1]) then None else Some(EntryOf(lib, ms[n - 1], |Locals(ms, n - 1)|));
      var more := if item.None? then [] else [item.value];
      assert Before(more, |Locals(ms, n)|) by { hide Left, Locals; }
      hide *;
      ItemsStep(lib, ms, n);
      SomesGrow(Items(lib, ms, n - 1), item);
      BeforeMore(Somes(Items(lib, ms, n - 1)), |Locals(ms, n - 1)|, more, |Locals(ms, n)|);
    }
  }

  lemma SmallWithout(entries: seq<Entry>, e: Entry)
    requires e.start <= e.end && Small(entries + [e])
    ensures Small(entries)
  {
    hide Total, Compressed;
    OneMore(entries, e);
  }

  lemma EntryForward(lib: Library, m: Member, local: nat)
    ensures EntryOf(lib, m, local).start <= EntryOf(lib, m, local).end
  {
  }

  lemma {:induction false} SmallPrefix(lib: Library, ms: seq<Member>, k: nat, n: nat)
    requires k <= n <= |ms| && Small(Somes(Items(lib, ms, n)))
    ensures Small(Somes(Items(lib, ms, k)))
  {
    hide *;
    if k < n {
      ItemsStep(lib, ms, n);
      if Left(lib, ms[n - 1]) {
        SomesGrow(Items(lib, ms, n - 1), None);
      } else {
        var e := EntryOf(lib, ms[n - 1], |Locals(ms, n - 1)|);
        SomesGrow(Items(lib, ms, n - 1), Some(e));
        EntryForward(lib, ms[n - 1], |Locals(ms, n - 1)|);
        SmallWithout(Somes(Items(lib, ms, n - 1)), e);
      }
      SmallPrefix(lib, ms, k, n - 1);
    }
  }

  lemma RoomAfter(entries: seq<Entry>, e: Entry, place: nat)
    requires Before(entries, place) && place <= e.start && Small(entries + [e])
    ensures Room(entries, e)
  {
    hide Total, Compressed;
    OneMore(entries, e);
  }

  lemma CentralsStep(lib: Library, ms: seq<Member>, n: nat)
    requires n < |ms| && Shaped(ms[n])
    ensures |Locals(ms, |ms|)| + |Centrals(lib, ms, n + 1)| == NextOf(|Locals(ms, |ms|)| + |Centrals(lib, ms, n)|, ms[n])
  {
    hide Locals, CentralPart;
    CentralLength(lib, ms[n], |Locals(ms, n)|);
  }

  lemma CentralLength(lib: Library, m: Member, local: nat)
    requires Shaped(m)
    ensures |CentralPart(lib, m, local)| == 46 + |m.name| + |m.extra| + |m.comment|
  {
    hide Little16, Little32;
  }

  lemma MemberGives(lib: Library, buf: seq<byte>, at: nat, m: Member, local: nat)
    requires Shaped(m) && (Left(lib, m) || Sincere(lib, m)) && local < 0x1_0000_0000
    requires Holds(buf, at, CentralPart(lib, m, local)) && Holds(buf, local, LocalPart(m))
    ensures if Left(lib, m) then Passes(lib, buf, at, NextOf(at, m)) else Gives(lib, buf, at, NextOf(at, m), EntryOf(lib, m, local))
  {
    hide Listed, Describes, Skipped, Holds, Sincere, Shaped, CentralPart, LocalPart, WithoutMark;
    MemberListed(lib, buf, at, m, local);
    if !Left(lib, m) {
      MemberDescribed(lib, buf, at, m, local);
    }
  }

  lemma MemberPlaced(lib: Library, ms: seq<Member>, rest: Rest, n: nat)
    requires Packable(lib, ms) && n < |ms|
    ensures var buf, at, local := Pack(lib, ms, rest), |Locals(ms, |ms|)| + |Centrals(lib, ms, n)|, |Locals(ms, n)|;
      Holds(buf, at, CentralPart(lib, ms[n], local)) && Holds(buf, local, LocalPart(ms[n]))
  {
    hide *;
    PackHolds(lib, ms, rest);
    LocalsHold(Pack(lib, ms, rest), ms, |ms|, n);
    CentralsHold(lib, Pack(lib, ms, rest), |Locals(ms, |ms|)|, ms, |ms|, n);
  }

  /** What the reader makes of one member, after those before it. */
  lemma MemberRead(lib: Library, ms: seq<Member>, rest: Rest, n: nat)
    requires Packable(lib, ms) && n < |ms|
    ensures var buf, m := Pack(lib, ms, rest), ms[n];
      ReadEntry(lib, buf, Ats(lib, ms, n)[n], Somes(Items(lib, ms, n)))
      == Ok(if Left(lib, m) then Passed(Ats(lib, ms, n + 1)[n + 1])
            else Taken(Ats(lib, ms, n + 1)[n + 1], EntryOf(lib, m, |Locals(ms, n)|)))
  {
    hide *;
    var buf, m, local := Pack(lib, ms, rest), ms[n], |Locals(ms, n)|;
    var at, before := |Locals(ms, |ms|)| + |Centrals(lib, ms, n)|, Somes(Items(lib, ms, n));
    MemberFacts(lib, ms, n);
    MemberPlaced(lib, ms, rest, n);
    MemberGives(lib, buf, at, m, local);
    CentralsStep(lib, ms, n);
    EntryWhen(lib, buf, at, before, NextOf(at, m), EntryOf(lib, m, local));
    if !Left(lib, m) {
      EntryStarts(lib, m, local);
      RoomAfter(before, EntryOf(lib, m, local), local);
    }
  }

  lemma EntryStarts(lib: Library, m: Member, local: nat)
    ensures local <= EntryOf(lib, m, local).start
  {
  }

  lemma MemberFacts(lib: Library, ms: seq<Member>, n: nat)
    requires Packable(lib, ms) && n < |ms|
    ensures Shaped(ms[n]) && (Left(lib, ms[n]) || Sincere(lib, ms[n])) && |Locals(ms, n)| < 0x1_0000_0000
    ensures Before(Somes(Items(lib, ms, n)), |Locals(ms, n)|)
    ensures !Left(lib, ms[n]) ==> Small(Somes(Items(lib, ms, n)) + [EntryOf(lib, ms[n], |Locals(ms, n)|)])
  {
    hide Locals, Centrals, Items, Somes, Small, Sincere, Left, EntryOf;
    EntriesBefore(lib, ms, n);
    LocalsGrow(ms, n, |ms|);
    SmallPrefix(lib, ms, n + 1, |ms|);
    ItemsStep(lib, ms, n + 1);
    if !Left(lib, ms[n]) {
      SomesGrow(Items(lib, ms, n), Some(EntryOf(lib, ms[n], |Locals(ms, n)|)));
    }
  }

  lemma {:induction false} PackGood(lib: Library, ms: seq<Member>, rest: Rest, n: nat)
    requires Packable(lib, ms) && n <= |ms|
    ensures Good(lib, Pack(lib, ms, rest), Ats(lib, ms, n), Items(lib, ms, n))
  {
    hide *;
    if n == 0 {
      NoMembers(lib, ms);
      NoItems(lib, Pack(lib, ms, rest), |Locals(ms, |ms|)|);
    } else {
      PackGood(lib, ms, rest, n - 1);
      MemberRead(lib, ms, rest, n - 1);
      ItemsStep(lib, ms, n);
      var item := if Left(lib, ms[n - 1]) then None else Some(EntryOf(lib, ms[n - 1], |Locals(ms, n - 1)|));
      GoodStep(lib, Pack(lib, ms, rest), Ats(lib, ms, n - 1), Items(lib, ms, n - 1), Ats(lib, ms, n)[n], item);
    }
  }

  lemma NoMembers(lib: Library, ms: seq<Member>)
    ensures Ats(lib, ms, 0) == [|Locals(ms, |ms|)|] && Items(lib, ms, 0) == []
  {
    hide Locals;
  }

  /** Where the end record is. */
  function EndOf(lib: Library, ms: seq<Member>): nat {
    |Locals(ms, |ms|)| + |Centrals(lib, ms, |ms|)|
  }

  /** No end signature stands after the end record's own. */
  ghost predicate LastEnd(buf: seq<byte>, at: nat) {
    forall i :: at < i <= |buf| - 22 ==> !Holds(buf, i, [0x50, 0x4b, 0x05, 0x06])
  }

  lemma EndHolds(buf: seq<byte>, at: nat, count: nat, size: nat, start: nat, rest: Rest)
    requires |rest.disks| == 6 && Holds(buf, at, EndPart(count, size, start, rest))
    ensures Holds(buf, at, [0x50, 0x4b, 0x05, 0x06]) && Holds(buf, at + 10, Little16(count))
    ensures Holds(buf, at + 12, Little32(size)) && Holds(buf, at + 16, Little32(start))
  {
    hide Holds, Little16, Little32;
    var d := Little16(|rest.comment|) + rest.comment;
    var c := Little32(start) + d;
    var b := Little32(size) + c;
    var a := Little16(count) + b;
    HoldsParts(buf, at, [0x50, 0x4b, 0x05, 0x06], rest.disks + a);
    HoldsParts(buf, at + 4, rest.disks, a);
    HoldsParts(buf, at + 10, Little16(count), b);
    HoldsParts(buf, at + 12, Little32(size), c);
    HoldsParts(buf, at + 16, Little32(start), d);
  }

  lemma PackLength(lib: Library, ms: seq<Member>, rest: Rest)
    requires |rest.disks| == 6
    ensures |Pack(lib, ms, rest)| == EndOf(lib, ms) + 22 + |rest.comment|
  {
    hide Locals, Centrals;
  }

  lemma PackAnnounces(lib: Library, ms: seq<Member>, rest: Rest)
    requires Packable(lib, ms) && |rest.disks| == 6 && |rest.comment| < 0x1_0000
    requires LastEnd(Pack(lib, ms, rest), EndOf(lib, ms))
    ensures Announces(Pack(lib, ms, rest), EndOf(lib, ms), |ms|, |Locals(ms, |ms|)|)
  {
    hide Locals, Centrals, Pack, EndPart, Holds, Little16, Little32;
    PackLength(lib, ms, rest);
    PackHolds(lib, ms, rest);
    EndHolds(Pack(lib, ms, rest), EndOf(lib, ms), |ms|, |Centrals(lib, ms, |ms|)|, |Locals(ms, |ms|)|, rest);
    assert Says32(Pack(lib, ms, rest), EndOf(lib, ms), 12, |Centrals(lib, ms, |ms|)|);
  }

  /** An archive of members stored and deflated, whoever wrote it, reads as exactly the entries of those that are not
      passed over. */
  lemma PackRead(lib: Library, ms: seq<Member>, rest: Rest)
    requires Packable(lib, ms) && |rest.disks| == 6 && |rest.comment| < 0x1_0000
    requires LastEnd(Pack(lib, ms, rest), EndOf(lib, ms))
    ensures ReadArchive(lib, Pack(lib, ms, rest)) == Ok(Finished(Collected(Entries(lib, ms))))
  {
    hide *;
    PackAnnounces(lib, ms, rest);
    PackGood(lib, ms, rest, |ms|);
    EntriesAre(lib, ms);
    AcceptedWhen(lib, Pack(lib, ms, rest), Finished(Collected(Entries(lib, ms))));
  }

  lemma EntriesAre(lib: Library, ms: seq<Member>)
    ensures Entries(lib, ms) == Somes(Items(lib, ms, |ms|)) && |Items(lib, ms, |ms|)| == |ms|
  {
    hide Somes, Items;
  }
}
