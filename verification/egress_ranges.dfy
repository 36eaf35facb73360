/** The verdict on an address: what the range tables cover, word for word, and what an IPv6 address that carries
    an IPv4 one gets. */
module EgressRanges {
  import opened Bits
  import opened Options
  import opened Egress
  import opened EgressSpelling

  /** Section 2.2.2 of RFC 6890 and the registries after it, octet by octet. */
  predicate SpecialV4(a: nat, b: nat, c: nat, d: nat) {
    || a == 0 || a == 10 || a == 127 || a >= 224
    || (a == 100 && 64 <= b < 128)
    || (a == 169 && b == 254)
    || (a == 172 && 16 <= b < 32)
    || (a == 192 && (b == 168 || (b == 0 && (c == 0 || c == 2)) || (b == 88 && c == 99)))
    || (a == 198 && (b == 18 || b == 19 || (b == 51 && c == 100)))
    || (a == 203 && b == 0 && c == 113)
  }

  predicate IsWords(w: Address, n: nat) {
    |w| == n && forall i :: 0 <= i < n ==> w[i] < 0x1_0000
  }

  /** The IPv6 ranges by their first words; those that carry an IPv4 address are judged before. */
  predicate SpecialV6(w: Address)
    requires |w| == 8
  {
    || (Zero(w, 0, 5) && (w[5] == 0 || w[5] == 0xFFFF))
    || (w[0] == 0x64 && w[1] == 0xFF9B && w[2] == 1)
    || (w[0] == 0x100 && Zero(w, 1, 4))
    || (w[0] == 0x2001 && (w[1] < 0x200 || w[1] == 0xDB8))
    || (w[0] == 0x3FFF && w[1] < 0x1000)
    || w[0] == 0x5F00
    || 0xFC00 <= w[0] <= 0xFDFF
    || 0xFE80 <= w[0] <= 0xFEFF
    || w[0] >= 0xFF00
  }

  // ----- Prefixes as ranges of words -----

  lemma Powers()
    ensures Pow2(0) == 1 && Pow2(4) == 16 && Pow2(6) == 64 && Pow2(7) == 128 && Pow2(8) == 256
    ensures Pow2(9) == 512 && Pow2(1) == 2 && Pow2(12) == 4096 && Pow2(16) == 0x1_0000
  {
    assert Pow2(2) == 4 && Pow2(6) == 64;
    assert Pow2(10) == 1024 && Pow2(14) == 16384;
  }

  /** The first k words are the network's. */
  predicate SameFirst(w: Address, net: Address, k: nat)
    requires k <= |w| == |net|
  {
    forall i :: 0 <= i < k ==> w[i] == net[i]
  }

  /** A prefix that ends inside word k, or before it, compares the words before it and the top of that one. */
  lemma PrefixMeans(w: Address, net: Address, prefix: nat, k: nat)
    requires |w| == |net| && IsWords(w, |w|) && IsWords(net, |net|)
    requires k < |w| && 16 * k <= prefix <= 16 * k + 16
    ensures InSubnet(w, Subnet(net, prefix))
      <==> SameFirst(w, net, k) && w[k] / Pow2(16 * k + 16 - prefix) == net[k] / Pow2(16 * k + 16 - prefix)
  {
    hide Pow2;
    Powers();
    var s := Subnet(net, prefix);
    assert Free(prefix, k) == 16 * k + 16 - prefix;
    forall i | 0 <= i < |w| ensures i < k ==> w[i] / Pow2(Free(prefix, i)) == w[i] && net[i] / Pow2(Free(prefix, i)) == net[i]
      ensures i > k ==> w[i] / Pow2(Free(prefix, i)) == 0 && net[i] / Pow2(Free(prefix, i)) == 0
    {
      if i < k { assert Free(prefix, i) == 0; }
      if i > k { assert Free(prefix, i) == 16; }
    }
    if InSubnet(w, s) {
      forall i | 0 <= i < k ensures w[i] == net[i] {
        assert w[i] / Pow2(Free(prefix, i)) == net[i] / Pow2(Free(prefix, i));
      }
    }
  }

  // ----- The IPv4 table -----

  predicate IsOctets(a: nat, b: nat, c: nat, d: nat) {
    a < 256 && b < 256 && c < 256 && d < 256
  }

  /** Prefixes of eight bits and of up to sixteen. */
  lemma V4Short(a: nat, b: nat, c: nat, d: nat, x: nat, y: nat, prefix: nat)
    requires IsOctets(a, b, c, d) && IsOctets(x, y, 0, 0) && prefix <= 16
    ensures InSubnet(V4(a, b, c, d), Subnet(V4(x, y, 0, 0), prefix))
      <==> (256 * a + b) / Pow2(16 - prefix) == (256 * x + y) / Pow2(16 - prefix)
  {
    hide Pow2, InSubnet;
    PrefixMeans(V4(a, b, c, d), V4(x, y, 0, 0), prefix, 0);
  }

  lemma V4Long(a: nat, b: nat, c: nat, d: nat, x: nat, y: nat, z: nat)
    requires IsOctets(a, b, c, d) && IsOctets(x, y, z, 0)
    ensures InSubnet(V4(a, b, c, d), Subnet(V4(x, y, z, 0), 24)) <==> a == x && b == y && c == z
  {
    hide Pow2, InSubnet;
    Powers();
    var w, net := V4(a, b, c, d), V4(x, y, z, 0);
    PrefixMeans(w, net, 24, 1);
    assert SameFirst(w, net, 1) <==> w[0] == net[0];
    assert (256 * c + d) / 256 == c && (256 * z + 0) / 256 == z;
  }

  lemma ByteRows(a: nat, b: nat, c: nat, d: nat)
    requires IsOctets(a, b, c, d)
    ensures var w := V4(a, b, c, d);
            && (InSubnet(w, NON_GLOBAL_V4[0]) <==> a == 0)
            && (InSubnet(w, NON_GLOBAL_V4[1]) <==> a == 10)
            && (InSubnet(w, NON_GLOBAL_V4[3]) <==> a == 127)
            && (InSubnet(w, NON_GLOBAL_V4[13]) || InSubnet(w, NON_GLOBAL_V4[14]) <==> a >= 224)
  {
    hide Pow2, InSubnet, V4;
    Powers();
    V4Short(a, b, c, d, 0, 0, 8);
    V4Short(a, b, c, d, 10, 0, 8);
    V4Short(a, b, c, d, 127, 0, 8);
    V4Short(a, b, c, d, 224, 0, 4);
    V4Short(a, b, c, d, 240, 0, 4);
  }

  lemma WordRows(a: nat, b: nat, c: nat, d: nat)
    requires IsOctets(a, b, c, d)
    ensures var w := V4(a, b, c, d);
            && (InSubnet(w, NON_GLOBAL_V4[2]) <==> a == 100 && 64 <= b < 128)
            && (InSubnet(w, NON_GLOBAL_V4[4]) <==> a == 169 && b == 254)
            && (InSubnet(w, NON_GLOBAL_V4[5]) <==> a == 172 && 16 <= b < 32)
            && (InSubnet(w, NON_GLOBAL_V4[9]) <==> a == 192 && b == 168)
            && (InSubnet(w, NON_GLOBAL_V4[10]) <==> a == 198 && (b == 18 || b == 19))
  {
    hide Pow2, InSubnet, V4;
    Powers();
    V4Short(a, b, c, d, 100, 64, 10);
    V4Short(a, b, c, d, 169, 254, 16);
    V4Short(a, b, c, d, 172, 16, 12);
    V4Short(a, b, c, d, 192, 168, 16);
    V4Short(a, b, c, d, 198, 18, 15);
  }

  lemma LongRows(a: nat, b: nat, c: nat, d: nat)
    requires IsOctets(a, b, c, d)
    ensures var w := V4(a, b, c, d);
            && (InSubnet(w, NON_GLOBAL_V4[6]) <==> a == 192 && b == 0 && c == 0)
            && (InSubnet(w, NON_GLOBAL_V4[7]) <==> a == 192 && b == 0 && c == 2)
            && (InSubnet(w, NON_GLOBAL_V4[8]) <==> a == 192 && b == 88 && c == 99)
            && (InSubnet(w, NON_GLOBAL_V4[11]) <==> a == 198 && b == 51 && c == 100)
            && (InSubnet(w, NON_GLOBAL_V4[12]) <==> a == 203 && b == 0 && c == 113)
  {
    hide Pow2, InSubnet, V4;
    V4Long(a, b, c, d, 192, 0, 0);
    V4Long(a, b, c, d, 192, 0, 2);
    V4Long(a, b, c, d, 192, 88, 99);
    V4Long(a, b, c, d, 198, 51, 100);
    V4Long(a, b, c, d, 203, 0, 113);
  }

  /** The table refuses exactly the special-purpose IPv4 addresses. */
  lemma TableV4(a: nat, b: nat, c: nat, d: nat)
    requires IsOctets(a, b, c, d)
    ensures InAny(V4(a, b, c, d), NON_GLOBAL_V4) <==> SpecialV4(a, b, c, d)
  {
    hide InSubnet, V4;
    ByteRows(a, b, c, d);
    WordRows(a, b, c, d);
    LongRows(a, b, c, d);
    AnyRow4(V4(a, b, c, d));
  }

  lemma AnyRow4(w: Address)
    ensures InAny(w, NON_GLOBAL_V4) <==> exists i :: 0 <= i < 15 && InSubnet(w, NON_GLOBAL_V4[i])
  {
    hide InSubnet, V4;
    assert |NON_GLOBAL_V4| == 15;
    if i :| 0 <= i < 15 && InSubnet(w, NON_GLOBAL_V4[i]) { assert NON_GLOBAL_V4[i] in NON_GLOBAL_V4; }
  }

  // ----- The IPv6 table -----

  /** A row whose prefix ends inside its first word, or inside its second. */
  lemma V6First(w: Address, net: Address, prefix: nat)
    requires IsWords(w, 8) && IsWords(net, 8) && prefix <= 16
    ensures InSubnet(w, Subnet(net, prefix)) <==> w[0] / Pow2(16 - prefix) == net[0] / Pow2(16 - prefix)
  {
    hide Pow2, InSubnet;
    PrefixMeans(w, net, prefix, 0);
  }

  lemma V6Second(w: Address, net: Address, prefix: nat)
    requires IsWords(w, 8) && IsWords(net, 8) && 16 <= prefix <= 32
    ensures InSubnet(w, Subnet(net, prefix))
      <==> w[0] == net[0] && w[1] / Pow2(32 - prefix) == net[1] / Pow2(32 - prefix)
  {
    hide Pow2, InSubnet;
    PrefixMeans(w, net, prefix, 1);
    assert SameFirst(w, net, 1) <==> w[0] == net[0];
  }

  /** A prefix of whole words. */
  lemma V6Words(w: Address, net: Address, k: nat)
    requires IsWords(w, 8) && IsWords(net, 8) && 1 <= k <= 8
    ensures InSubnet(w, Subnet(net, 16 * k)) <==> SameFirst(w, net, k)
  {
    hide Pow2, InSubnet;
    Powers();
    PrefixMeans(w, net, 16 * k, k - 1);
  }

  lemma FirstWordRows(w: Address)
    requires IsWords(w, 8)
    ensures InSubnet(w, NON_GLOBAL_V6[7]) <==> w[0] == 0x5F00
    ensures InSubnet(w, NON_GLOBAL_V6[8]) <==> 0xFC00 <= w[0] <= 0xFDFF
    ensures InSubnet(w, NON_GLOBAL_V6[9]) || InSubnet(w, NON_GLOBAL_V6[10]) <==> 0xFE80 <= w[0] <= 0xFEFF
    ensures InSubnet(w, NON_GLOBAL_V6[11]) <==> w[0] >= 0xFF00
  {
    hide Pow2, InSubnet;
    Powers();
    V6First(w, [0x5F00, 0, 0, 0, 0, 0, 0, 0], 16);
    V6First(w, [0xFC00, 0, 0, 0, 0, 0, 0, 0], 7);
    V6First(w, [0xFE80, 0, 0, 0, 0, 0, 0, 0], 10);
    V6First(w, [0xFEC0, 0, 0, 0, 0, 0, 0, 0], 10);
    V6First(w, [0xFF00, 0, 0, 0, 0, 0, 0, 0], 8);
  }

  lemma SecondWordRows(w: Address)
    requires IsWords(w, 8)
    ensures InSubnet(w, NON_GLOBAL_V6[4]) <==> w[0] == 0x2001 && w[1] < 0x200
    ensures InSubnet(w, NON_GLOBAL_V6[5]) <==> w[0] == 0x2001 && w[1] == 0xDB8
    ensures InSubnet(w, NON_GLOBAL_V6[6]) <==> w[0] == 0x3FFF && w[1] < 0x1000
  {
    hide Pow2, InSubnet;
    Powers();
    V6Second(w, [0x2001, 0, 0, 0, 0, 0, 0, 0], 23);
    V6Second(w, [0x2001, 0xDB8, 0, 0, 0, 0, 0, 0], 32);
    V6Second(w, [0x3FFF, 0, 0, 0, 0, 0, 0, 0], 20);
  }

  lemma WholeWordRows(w: Address)
    requires IsWords(w, 8)
    ensures InSubnet(w, NON_GLOBAL_V6[0]) <==> Zero(w, 0, 6)
    ensures InSubnet(w, NON_GLOBAL_V6[1]) <==> Zero(w, 0, 5) && w[5] == 0xFFFF
    ensures InSubnet(w, NON_GLOBAL_V6[2]) <==> w[0] == 0x64 && w[1] == 0xFF9B && w[2] == 1
    ensures InSubnet(w, NON_GLOBAL_V6[3]) <==> w[0] == 0x100 && Zero(w, 1, 4)
  {
    hide Pow2, InSubnet;
    V6Words(w, [0, 0, 0, 0, 0, 0, 0, 0], 6);
    V6Words(w, [0, 0, 0, 0, 0, 0xFFFF, 0, 0], 6);
    V6Words(w, [0x64, 0xFF9B, 1, 0, 0, 0, 0, 0], 3);
    V6Words(w, [0x100, 0, 0, 0, 0, 0, 0, 0], 4);
  }

  lemma AnyRow6(w: Address)
    ensures InAny(w, NON_GLOBAL_V6) <==> exists i :: 0 <= i < 12 && InSubnet(w, NON_GLOBAL_V6[i])
  {
    hide InSubnet;
    assert |NON_GLOBAL_V6| == 12;
    if i :| 0 <= i < 12 && InSubnet(w, NON_GLOBAL_V6[i]) { assert NON_GLOBAL_V6[i] in NON_GLOBAL_V6; }
  }

  /** The table refuses exactly the special-purpose IPv6 addresses. */
  lemma TableV6(w: Address)
    requires IsWords(w, 8)
    ensures InAny(w, NON_GLOBAL_V6) <==> SpecialV6(w)
  {
    hide InSubnet;
    FirstWordRows(w);
    SecondWordRows(w);
    WholeWordRows(w);
    AnyRow6(w);
  }

  /** Of the first two rows only the unspecified address and loopback are ever reached: the rest carry an IPv4
      address and are judged as that. */
  lemma FirstRowsReached(w: Address)
    requires IsWords(w, 8) && EmbeddedV4(w).None?
    ensures InSubnet(w, NON_GLOBAL_V6[0]) || InSubnet(w, NON_GLOBAL_V6[1])
      <==> Zero(w, 0, 7) && (w[7] == 0 || w[7] == 1)
  {
    hide InSubnet;
    WholeWordRows(w);
  }

  // ----- The verdict -----

  /** What an address should get, from its words alone. */
  predicate Routable(w: Address)
    requires |w| == 8
  {
    match EmbeddedV4(w)
    case Some(v4) => !InAny(v4, NON_GLOBAL_V4)
    case None => !SpecialV6(w)
  }

  /** The runtime knows the text for IPv6 and reads the same address from it. */
  predicate Knows(net: Net, sp: Spelling)
    requires Spelled(sp)
  {
    net.isIP(Render(sp)) == 6 && net.v6(Render(sp)) == Words(sp)
  }

  lemma {:induction false} NoPercentJoin(items: seq<string>)
    requires forall i :: 0 <= i < |items| ==> '%' !in items[i]
    ensures '%' !in Join(items)
  {
    if |items| > 1 { NoPercentJoin(items[1..]); }
  }

  lemma NoPercentGroups(gs: seq<string>, q: Option<Quad>)
    requires AllGroups(gs) && (q.Some? ==> Digital(q.value))
    ensures '%' !in Join(Items(gs, q)) && '%' !in Join(gs)
  {
    forall i | 0 <= i < |gs| ensures '%' !in gs[i] {
      assert IsGroup(gs[i]);
      forall j | 0 <= j < |gs[i]| ensures gs[i][j] != '%' { assert IsHex(Lower(gs[i])[j]); }
    }
    if q.Some? {
      QuadTextChars(q.value);
      assert '%' !in QuadText(q.value);
    }
    NoPercentJoin(Items(gs, q));
    NoPercentJoin(gs);
  }

  lemma NoPercent(sp: Spelling)
    requires Spelled(sp)
    ensures '%' !in Render(sp)
  {
    hide AllGroups, Join, Items, Octets, Digital;
    if sp.quad.Some? { QuadIsDigital(sp.quad.value); }
    match sp
    case Full(gs, q) => NoPercentGroups(gs, q);
    case Gapped(h, t, q) =>
      NoPercentGroups(h, None);
      NoPercentGroups(t, q);
  }

  lemma WordsAreWords(sp: Spelling)
    requires Spelled(sp)
    ensures IsWords(Words(sp), 8)
  {
    hide HexValue, Decimal;
    match sp
    case Full(gs, q) => ValuesAreWords(gs);
    case Gapped(h, t, q) =>
      ValuesAreWords(h);
      ValuesAreWords(t);
  }

  lemma ValuesAreWords(gs: seq<string>)
    requires AllGroups(gs)
    ensures forall i :: 0 <= i < |gs| ==> Values(gs)[i] < 0x1_0000
  {
    hide HexValue;
    forall i | 0 <= i < |gs| ensures HexValue(Lower(gs[i])) < 0x1_0000 {
      assert IsGroup(gs[i]);
      HexBelow(Lower(gs[i]), 4);
      assert Sixteens(4) == 0x1_0000;
    }
  }

  lemma {:induction false} HexBelow(s: string, k: nat)
    requires AllHex(s) && |s| <= k
    ensures HexValue(s) < Sixteens(k)
  {
    if |s| > 0 { HexBelow(s[..|s| - 1], k - 1); }
  }

  /** Every spelling of an address gets the verdict of its words. */
  lemma VerdictOfWords(net: Net, sp: Spelling)
    requires Spelled(sp) && Knows(net, sp)
    ensures IsGlobalAddress(net, Render(sp)) <==> Routable(Words(sp))
  {
    hide Spelled, Render, Words, Ipv6Words, InAny, SpecialV6, EmbeddedV4;
    SpellingReads(sp);
    NoPercent(sp);
    WordsAreWords(sp);
    TableV6(Words(sp));
  }

  /** Forms of an IPv6 address that carry the IPv4 address [hi, lo]. */
  datatype Form = Mapped | Compatible | Nat64 | SixToFour(rest: Address)

  predicate Carries(w: Address, form: Form, hi: nat, lo: nat)
    requires |w| == 8
  {
    match form
    case Mapped => w == [0, 0, 0, 0, 0, 0xFFFF, hi, lo]
    case Compatible => w == [0, 0, 0, 0, 0, 0, hi, lo] && !(hi == 0 && lo <= 1)
    case Nat64 => w == [0x64, 0xFF9B, 0, 0, 0, 0, hi, lo]
    case SixToFour(rest) => w == [0x2002, hi, lo] + rest
  }

  lemma CarriedIsEmbedded(w: Address, form: Form, hi: nat, lo: nat)
    requires |w| == 8 && Carries(w, form, hi, lo)
    ensures EmbeddedV4(w) == Some([hi, lo])
  {
    match form
    case SixToFour(rest) => assert w[0] == 0x2002 && w[1] == hi && w[2] == lo;
    case Nat64 => assert w[0] == 0x64;
    case _ =>
  }

  /** Every spelling of every form that carries an IPv4 address gets exactly that address's verdict. */
  lemma EmbeddedVerdict(net: Net, sp: Spelling, form: Form, v4: string, a: nat, b: nat, c: nat, d: nat)
    requires Spelled(sp) && Knows(net, sp) && IsOctets(a, b, c, d)
    requires Carries(Words(sp), form, 256 * a + b, 256 * c + d)
    requires net.isIP(v4) == 4 && net.v4(v4) == V4(a, b, c, d)
    ensures IsGlobalAddress(net, Render(sp)) == IsGlobalAddress(net, v4) == !SpecialV4(a, b, c, d)
  {
    hide Spelled, Render, Words, Ipv6Words, InAny, EmbeddedV4, Carries, Knows, SpecialV4;
    VerdictOfWords(net, sp);
    CarriedIsEmbedded(Words(sp), form, 256 * a + b, 256 * c + d);
    TableV4(a, b, c, d);
  }
}
