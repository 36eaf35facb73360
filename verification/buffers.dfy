/** Byte strings, and little-endian numbers in them. */
module Buffers {
  import opened Options

  type byte = b: int | 0 <= b < 256

  /** The bytes of an ASCII literal. */
  function Ascii(s: string): (bytes: seq<byte>)
    requires forall i :: 0 <= i < |s| ==> s[i] as int < 128
    ensures |bytes| == |s|
    ensures forall i :: 0 <= i < |s| ==> bytes[i] == s[i] as int
  {
    seq(|s|, i requires 0 <= i < |s| => s[i] as int)
  }

  function Zeros(n: nat): (s: seq<byte>)
    ensures |s| == n
  {
    seq(n, _ => 0)
  }

  // ----- Little-endian fields -----

  function Low(value: nat): byte {
    value % 256
  }

  function Little16(value: nat): (r: seq<byte>)
    ensures |r| == 2
  {
    [Low(value), Low(value / 0x100)]
  }

  function Little32(value: nat): (r: seq<byte>)
    ensures |r| == 4
  {
    [Low(value), Low(value / 0x100), Low(value / 0x1_0000), Low(value / 0x100_0000)]
  }

  function Get16(s: seq<byte>, at: nat): (value: nat)
    requires at + 2 <= |s|
    ensures value < 0x1_0000
  {
    s[at] as int + 0x100 * s[at + 1] as int
  }

  function Get32(s: seq<byte>, at: nat): (value: nat)
    requires at + 4 <= |s|
    ensures value < 0x1_0000_0000
  {
    s[at] as int + 0x100 * s[at + 1] as int + 0x1_0000 * s[at + 2] as int + 0x100_0000 * s[at + 3] as int
  }

  lemma Weighted16(value: nat)
    requires value < 0x1_0000
    ensures Low(value) as int + 0x100 * Low(value / 0x100) as int == value
  {
  }

  lemma Weighted32(value: nat)
    requires value < 0x1_0000_0000
    ensures Low(value) as int + 0x100 * Low(value / 0x100) as int + 0x1_0000 * Low(value / 0x1_0000) as int
      + 0x100_0000 * Low(value / 0x100_0000) as int == value
  {
    var a, b, c := value / 0x100, value / 0x1_0000, value / 0x100_0000;
    assert value == 0x100 * a + Low(value);
    assert a == 0x100 * b + Low(a);
    assert b == 0x100 * c + Low(b);
  }

  lemma Bytes16(a: byte, b: byte)
    ensures Little16(a as int + 0x100 * b as int) == [a, b]
  {
  }

  lemma Bytes32(a: byte, b: byte, c: byte, d: byte)
    ensures Little32(a as int + 0x100 * b as int + 0x1_0000 * c as int + 0x100_0000 * d as int) == [a, b, c, d]
  {
    var n := a as int + 0x100 * b as int + 0x1_0000 * c as int + 0x100_0000 * d as int;
    assert n / 0x100 == b as int + 0x100 * c as int + 0x1_0000 * d as int;
    assert n / 0x1_0000 == c as int + 0x100 * d as int;
    assert n / 0x100_0000 == d as int;
  }

  /** A number is read exactly where its bytes stand. */
  lemma Get16When(s: seq<byte>, at: nat, value: nat)
    requires at + 2 <= |s| && value < 0x1_0000
    ensures Get16(s, at) == value <==> Holds(s, at, Little16(value))
  {
    var part := s[at..at + 2];
    assert part == [s[at], s[at + 1]];
    Weighted16(value);
    Bytes16(s[at], s[at + 1]);
    hide Low;
  }

  lemma Get32When(s: seq<byte>, at: nat, value: nat)
    requires at + 4 <= |s| && value < 0x1_0000_0000
    ensures Get32(s, at) == value <==> Holds(s, at, Little32(value))
  {
    var part := s[at..at + 4];
    assert part == [s[at], s[at + 1], s[at + 2], s[at + 3]];
    Weighted32(value);
    Bytes32(s[at], s[at + 1], s[at + 2], s[at + 3]);
    hide Low;
  }

  /** Writing the next bytes of a buffer that is zero from there on. */
  lemma Filled(before: seq<byte>, after: seq<byte>, done: seq<byte>, part: seq<byte>, k: nat)
    requires before == done + Zeros(k) && |part| <= k
    requires after == before[..|done|] + part + before[|done| + |part|..]
    ensures after == done + part + Zeros(k - |part|)
  {
    assert before[|done| + |part|..] == Zeros(k - |part|);
    assert before[..|done|] == done;
  }

  lemma ZerosSplit(done: seq<byte>, j: nat, k: nat)
    ensures done + Zeros(j + k) == done + Zeros(j) + Zeros(k)
  {
  }

  /** `buffer.writeUInt16LE` */
  method WriteUInt16LE(a: array<byte>, value: nat, at: nat)
    requires at + 2 <= a.Length && value < 0x1_0000
    modifies a
    ensures a[..] == old(a[..])[..at] + Little16(value) + old(a[..])[at + 2..]
  {
    a[at] := Low(value);
    a[at + 1] := Low(value / 0x100);
  }

  /** `buffer.writeUInt32LE` */
  method WriteUInt32LE(a: array<byte>, value: nat, at: nat)
    requires at + 4 <= a.Length && value < 0x1_0000_0000
    modifies a
    ensures a[..] == old(a[..])[..at] + Little32(value) + old(a[..])[at + 4..]
  {
    a[at] := Low(value);
    a[at + 1] := Low(value / 0x100);
    a[at + 2] := Low(value / 0x1_0000);
    a[at + 3] := Low(value / 0x100_0000);
  }

  /** The same into a buffer that holds `done` and is zero from there on. */
  method Fill16(a: array<byte>, value: nat, at: nat, ghost done: seq<byte>) returns (ghost more: seq<byte>)
    requires at + 2 <= a.Length && value < 0x1_0000 && |done| == at && a[..] == done + Zeros(a.Length - at)
    modifies a
    ensures more == done + Little16(value) && a[..] == more + Zeros(a.Length - (at + 2))
  {
    hide Little16;
    WriteUInt16LE(a, value, at);
    Filled(old(a[..]), a[..], done, Little16(value), a.Length - at);
    more := done + Little16(value);
  }

  method Fill32(a: array<byte>, value: nat, at: nat, ghost done: seq<byte>) returns (ghost more: seq<byte>)
    requires at + 4 <= a.Length && value < 0x1_0000_0000 && |done| == at && a[..] == done + Zeros(a.Length - at)
    modifies a
    ensures more == done + Little32(value) && a[..] == more + Zeros(a.Length - (at + 4))
  {
    hide Little32;
    WriteUInt32LE(a, value, at);
    Filled(old(a[..]), a[..], done, Little32(value), a.Length - at);
    more := done + Little32(value);
  }

  /** `subarray`: the bytes from a up to b, as far as there are any. */
  function Slice(s: seq<byte>, a: nat, b: nat): (r: seq<byte>)
    ensures a <= b <= |s| ==> r == s[a..b]
  {
    var hi := if b < |s| then b else |s|;
    if a <= hi then s[a..hi] else []
  }

  // ----- Parts of a byte string -----

  /** The part stands in the bytes at this place. */
  predicate Holds(bytes: seq<byte>, at: nat, part: seq<byte>) {
    at + |part| <= |bytes| && bytes[at..at + |part|] == part
  }

  lemma HoldsParts(bytes: seq<byte>, at: nat, a: seq<byte>, b: seq<byte>)
    requires Holds(bytes, at, a + b)
    ensures Holds(bytes, at, a) && Holds(bytes, at + |a|, b)
  {
    var both := bytes[at..at + |a + b|];
    assert a == both[..|a|] && b == both[|a|..];
  }

  /** `indexOf`: the first place at or after `from` where the pattern stands. */
  function IndexOf(s: seq<byte>, pattern: seq<byte>, from: nat): (r: Option<nat>)
    ensures r.Some? ==> from <= r.value && Holds(s, r.value, pattern)
    ensures r.Some? ==> forall i :: from <= i < r.value ==> !Holds(s, i, pattern)
    ensures r.None? ==> forall i :: from <= i ==> !Holds(s, i, pattern)
    decreases |s| - from
  {
    if from + |pattern| > |s| then None
    else if Holds(s, from, pattern) then Some(from)
    else IndexOf(s, pattern, from + 1)
  }

  lemma IndexOfIs(s: seq<byte>, pattern: seq<byte>, from: nat, at: nat)
    requires from <= at && Holds(s, at, pattern)
    requires forall i :: from <= i < at ==> !Holds(s, i, pattern)
    ensures IndexOf(s, pattern, from) == Some(at)
  {
  }
}
