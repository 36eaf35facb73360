/** Which IP addresses are globally routable: reading the words of an IPv6 address, the IPv4 address some of
    them carry, and the tables of special-purpose ranges. */
module Egress {
  import opened Bits
  import opened Options

  // ----- Characters -----

  function LowerChar(c: char): char {
    if 'A' <= c <= 'Z' then (c as int + 32) as char else c
  }

  function Lower(s: string): (r: string)
    ensures |r| == |s|
    ensures forall i :: 0 <= i < |s| ==> r[i] == LowerChar(s[i])
  {
    seq(|s|, i requires 0 <= i < |s| => LowerChar(s[i]))
  }

  predicate IsDigit(c: char) {
    '0' <= c <= '9'
  }

  predicate IsHex(c: char) {
    IsDigit(c) || 'a' <= c <= 'f'
  }

  function HexDigit(c: char): nat
    requires IsHex(c)
  {
    if IsDigit(c) then c as int - 48 else c as int - 87
  }

  predicate AllDigits(s: string) {
    forall i :: 0 <= i < |s| ==> IsDigit(s[i])
  }

  predicate AllHex(s: string) {
    forall i :: 0 <= i < |s| ==> IsHex(s[i])
  }

  function Decimal(s: string): nat
    requires AllDigits(s)
  {
    if |s| == 0 then 0 else 10 * Decimal(s[..|s| - 1]) + (s[|s| - 1] as int - 48)
  }

  function HexValue(s: string): nat
    requires AllHex(s)
  {
    if |s| == 0 then 0 else 16 * HexValue(s[..|s| - 1]) + HexDigit(s[|s| - 1])
  }

  /** toString(16) */
  function Hex(n: nat): (s: string)
    ensures AllHex(s)
  {
    var d := n % 16;
    var last := if d < 10 then (48 + d) as char else (87 + d) as char;
    if n < 16 then [last] else Hex(n / 16) + [last]
  }

  // ----- A trailing dotted quad -----

  datatype Quad = Quad(a: string, b: string, c: string, d: string)

  /** The end of the digits at i. */
  function DigitsEnd(s: string, i: nat): (e: nat)
    requires i <= |s|
    ensures i <= e <= |s| && AllDigits(s[i..e])
    decreases |s| - i
  {
    if i < |s| && IsDigit(s[i]) then
      assert forall e :: i + 1 <= e <= |s| ==> s[i..e] == [s[i]] + s[i + 1..e];
      DigitsEnd(s, i + 1)
    else i
  }

  predicate DotAt(s: string, i: nat) {
    i < |s| && s[i] == '.'
  }

  /** Four numbers with dots between, from i to the end. */
  function QuadAt(s: string, i: nat): Option<Quad>
    requires i <= |s|
  {
    var a := DigitsEnd(s, i);
    if a == i || !DotAt(s, a) then None else
    var b := DigitsEnd(s, a + 1);
    if b == a + 1 || !DotAt(s, b) then None else
    var c := DigitsEnd(s, b + 1);
    if c == b + 1 || !DotAt(s, c) then None else
    var d := DigitsEnd(s, c + 1);
    if d == c + 1 || d != |s| then None
    else Some(Quad(s[i..a], s[a + 1..b], s[b + 1..c], s[c + 1..d]))
  }

  datatype Found = Found(at: nat, quad: Quad)

  /** The leftmost. */
  function FindQuad(s: string, i: nat): (r: Option<Found>)
    requires i <= |s|
    ensures r.Some? ==> i <= r.value.at <= |s| && QuadAt(s, r.value.at) == Some(r.value.quad)
    decreases |s| - i
  {
    if QuadAt(s, i).Some? then Some(Found(i, QuadAt(s, i).value))
    else if i == |s| then None
    else FindQuad(s, i + 1)
  }

  predicate Digital(q: Quad) {
    AllDigits(q.a) && AllDigits(q.b) && AllDigits(q.c) && AllDigits(q.d)
  }

  predicate Octets(q: Quad)
    requires Digital(q)
  {
    Decimal(q.a) <= 255 && Decimal(q.b) <= 255 && Decimal(q.c) <= 255 && Decimal(q.d) <= 255
  }

  /** The quad's two words. */
  function HighWord(q: Quad): nat
    requires Digital(q)
  {
    256 * Decimal(q.a) + Decimal(q.b)
  }

  function LowWord(q: Quad): nat
    requires Digital(q)
  {
    256 * Decimal(q.c) + Decimal(q.d)
  }

  // ----- Groups -----

  function FirstColon(s: string, i: nat): (k: nat)
    requires i <= |s|
    ensures i <= k <= |s| && (forall j :: i <= j < k ==> s[j] != ':') && (k < |s| ==> s[k] == ':')
    decreases |s| - i
  {
    if i < |s| && s[i] != ':' then FirstColon(s, i + 1) else i
  }

  /** split(':') */
  function Split(s: string): seq<string>
    decreases |s|
  {
    var k := FirstColon(s, 0);
    if k == |s| then [s] else [s[..k]] + Split(s[k + 1..])
  }

  predicate GapAt(s: string, k: nat) {
    k + 1 < |s| && s[k] == ':' && s[k + 1] == ':'
  }

  function FirstGap(s: string, i: nat): (k: nat)
    requires i <= |s|
    ensures i <= k <= |s| && (forall j :: i <= j < k ==> !GapAt(s, j)) && (k < |s| ==> GapAt(s, k))
    decreases |s| - i
  {
    if i < |s| && !GapAt(s, i) then FirstGap(s, i + 1) else i
  }

  /** split('::') */
  function Halves(s: string): (r: seq<string>)
    ensures |r| >= 1
    decreases |s|
  {
    var k := FirstGap(s, 0);
    if k == |s| then [s] else [s[..k]] + Halves(s[k + 2..])
  }

  /** One group's word: one to four hexadecimal digits. */
  function Word(group: string): Option<nat> {
    if 1 <= |group| <= 4 && AllHex(group) then Some(HexValue(group)) else None
  }

  function WordsIn(groups: seq<string>): (r: seq<Option<nat>>)
    ensures |r| == |groups|
  {
    seq(|groups|, i requires 0 <= i < |groups| => Word(groups[i]))
  }

  function ParseGroups(half: string): seq<Option<nat>> {
    if half == "" then [] else WordsIn(Split(half))
  }

  function AllSome(words: seq<Option<nat>>): (r: Option<seq<nat>>)
    ensures r.Some? ==> |r.value| == |words|
  {
    if exists i :: 0 <= i < |words| && words[i].None? then None
    else Some(seq(|words|, i requires 0 <= i < |words| => words[i].value))
  }

  function NoWords(n: nat): (r: seq<Option<nat>>)
    ensures |r| == n
  {
    seq(n, _ => Some(0))
  }

  function FromGroups(text: string): (r: Option<seq<nat>>)
    ensures r.Some? ==> |r.value| == 8
  {
    var halves := Halves(text);
    if |halves| > 2 then None else
    var head := ParseGroups(halves[0]);
    var rest := if |halves| == 2 then ParseGroups(halves[1]) else [];
    var known := |head| + |rest|;
    if (if |halves| == 1 then known != 8 else known > 7) then None
    else AllSome(head + NoWords(8 - known) + rest)
  }

  /** The eight words of an IPv6 literal; a trailing dotted quad is first rewritten as two groups. */
  function Ipv6Words(address: string): (r: Option<seq<nat>>)
    ensures r.Some? ==> |r.value| == 8
  {
    var text := Lower(address);
    var found := FindQuad(text, 0);
    if found.None? then FromGroups(text) else
    var q := found.value.quad;
    if !Octets(q) then None
    else FromGroups(text[..found.value.at] + Hex(HighWord(q)) + ":" + Hex(LowWord(q)))
  }

  // ----- Ranges -----

  /** An address is its 16-bit words: two, or eight. */
  type Address = seq<nat>

  datatype Subnet = Subnet(net: Address, prefix: nat)

  /** How many of a word's low bits a prefix leaves free. */
  function Free(prefix: nat, i: nat): nat {
    if prefix >= 16 * i + 16 then 0 else if prefix <= 16 * i then 16 else 16 * i + 16 - prefix
  }

  /** The first `prefix` bits agree. */
  predicate InSubnet(w: Address, s: Subnet) {
    |w| == |s.net| && forall i :: 0 <= i < |w| ==> w[i] / Pow2(Free(s.prefix, i)) == s.net[i] / Pow2(Free(s.prefix, i))
  }

  predicate InAny(w: Address, list: seq<Subnet>) {
    exists s :: s in list && InSubnet(w, s)
  }

  function V4(a: nat, b: nat, c: nat, d: nat): Address {
    [256 * a + b, 256 * c + d]
  }

  const NON_GLOBAL_V4: seq<Subnet> := [
    Subnet(V4(0, 0, 0, 0), 8),
    Subnet(V4(10, 0, 0, 0), 8),
    Subnet(V4(100, 64, 0, 0), 10),
    Subnet(V4(127, 0, 0, 0), 8),
    Subnet(V4(169, 254, 0, 0), 16),
    Subnet(V4(172, 16, 0, 0), 12),
    Subnet(V4(192, 0, 0, 0), 24),
    Subnet(V4(192, 0, 2, 0), 24),
    Subnet(V4(192, 88, 99, 0), 24),
    Subnet(V4(192, 168, 0, 0), 16),
    Subnet(V4(198, 18, 0, 0), 15),
    Subnet(V4(198, 51, 100, 0), 24),
    Subnet(V4(203, 0, 113, 0), 24),
    Subnet(V4(224, 0, 0, 0), 4),
    Subnet(V4(240, 0, 0, 0), 4)
  ]

  const NON_GLOBAL_V6: seq<Subnet> := [
    Subnet([0, 0, 0, 0, 0, 0, 0, 0], 96),
    Subnet([0, 0, 0, 0, 0, 0xFFFF, 0, 0], 96),
    Subnet([0x64, 0xFF9B, 1, 0, 0, 0, 0, 0], 48),
    Subnet([0x100, 0, 0, 0, 0, 0, 0, 0], 64),
    Subnet([0x2001, 0, 0, 0, 0, 0, 0, 0], 23),
    Subnet([0x2001, 0xDB8, 0, 0, 0, 0, 0, 0], 32),
    Subnet([0x3FFF, 0, 0, 0, 0, 0, 0, 0], 20),
    Subnet([0x5F00, 0, 0, 0, 0, 0, 0, 0], 16),
    Subnet([0xFC00, 0, 0, 0, 0, 0, 0, 0], 7),
    Subnet([0xFE80, 0, 0, 0, 0, 0, 0, 0], 10),
    Subnet([0xFEC0, 0, 0, 0, 0, 0, 0, 0], 10),
    Subnet([0xFF00, 0, 0, 0, 0, 0, 0, 0], 8)
  ]

  predicate Zero(w: Address, from: nat, to: nat)
    requires from <= to <= |w|
  {
    forall i :: from <= i < to ==> w[i] == 0
  }

  /** The IPv4 address that an IPv6 one carries: mapped, compatible, NAT64 or 6to4. */
  function EmbeddedV4(w: Address): Option<Address>
    requires |w| == 8
  {
    if Zero(w, 0, 5) && w[5] == 0xFFFF then Some([w[6], w[7]])
    else if Zero(w, 0, 6) && !(w[6] == 0 && (w[7] == 0 || w[7] == 1)) then Some([w[6], w[7]])
    else if w[0] == 0x64 && w[1] == 0xFF9B && Zero(w, 2, 6) then Some([w[6], w[7]])
    else if w[0] == 0x2002 then Some([w[1], w[2]])
    else None
  }

  /** The runtime's part: the kind of a literal, 4, 6 or neither, and the address its prefix matcher reads from
      one. */
  datatype Net = Net(isIP: string -> nat, v4: string -> Address, v6: string -> Address)

  function IsGlobalAddress(net: Net, address: string): bool {
    var kind := net.isIP(address);
    if kind == 4 then !InAny(net.v4(address), NON_GLOBAL_V4)
    else if kind != 6 then false
    else if '%' in address then false
    else
      match Ipv6Words(address)
      case None => false
      case Some(words) =>
        var embedded := EmbeddedV4(words);
        if embedded.Some? then !InAny(embedded.value, NON_GLOBAL_V4)
        else !InAny(net.v6(address), NON_GLOBAL_V6)
  }
}
