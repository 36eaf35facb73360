/** Every spelling of an IPv6 address (section 2.2 of RFC 4291) reads as the same words and gets the same
    verdict, and an embedded IPv4 address gets its own. */
module EgressSpelling {
  import opened Options
  import opened Egress

  /** Groups of hexadecimal digits, of any case and with leading zeros; at most one run of zeros left out; and
      possibly the last two words as a dotted quad. */
  datatype Spelling =
    | Full(groups: seq<string>, quad: Option<Quad>)
    | Gapped(head: seq<string>, tail: seq<string>, quad: Option<Quad>)

  predicate IsGroup(g: string) {
    1 <= |g| <= 4 && AllHex(Lower(g))
  }

  predicate AllGroups(gs: seq<string>) {
    forall i :: 0 <= i < |gs| ==> IsGroup(gs[i])
  }

  predicate IsQuad(q: Quad) {
    Digital(q) && Octets(q) && q.a != "" && q.b != "" && q.c != "" && q.d != ""
  }

  function QuadSize(q: Option<Quad>): nat {
    if q.Some? then 2 else 0
  }

  predicate Spelled(sp: Spelling) {
    && (sp.quad.Some? ==> IsQuad(sp.quad.value))
    && match sp
       case Full(gs, q) => AllGroups(gs) && |gs| + QuadSize(q) == 8
       case Gapped(h, t, q) => AllGroups(h) && AllGroups(t) && |h| + |t| + QuadSize(q) <= 7
  }

  function QuadText(q: Quad): string {
    q.a + "." + q.b + "." + q.c + "." + q.d
  }

  function Items(gs: seq<string>, q: Option<Quad>): seq<string> {
    if q.Some? then gs + [QuadText(q.value)] else gs
  }

  function Join(items: seq<string>): string {
    if |items| == 0 then "" else if |items| == 1 then items[0] else items[0] + ":" + Join(items[1..])
  }

  function Render(sp: Spelling): string {
    match sp
    case Full(gs, q) => Join(Items(gs, q))
    case Gapped(h, t, q) => Join(h) + "::" + Join(Items(t, q))
  }

  function Values(gs: seq<string>): (r: seq<nat>)
    requires AllGroups(gs)
    ensures |r| == |gs|
  {
    seq(|gs|, i requires 0 <= i < |gs| => HexValue(Lower(gs[i])))
  }

  function QuadValues(q: Option<Quad>): (r: seq<nat>)
    requires q.Some? ==> Digital(q.value)
    ensures |r| == QuadSize(q)
  {
    if q.Some? then [HighWord(q.value), LowWord(q.value)] else []
  }

  function Zeroes(n: nat): (r: seq<nat>)
    ensures |r| == n
  {
    seq(n, _ => 0)
  }

  /** The eight words a spelling is of. */
  function Words(sp: Spelling): (r: seq<nat>)
    requires Spelled(sp)
    ensures |r| == 8
  {
    match sp
    case Full(gs, q) => Values(gs) + QuadValues(q)
    case Gapped(h, t, q) =>
      Values(h) + Zeroes(8 - |h| - |t| - QuadSize(q)) + Values(t) + QuadValues(q)
  }

  // ----- Case -----

  lemma LowerConcat(a: string, b: string)
    ensures Lower(a + b) == Lower(a) + Lower(b)
  {
  }

  lemma LowerTwice(s: string)
    ensures Lower(Lower(s)) == Lower(s)
  {
  }

  function LowerAll(gs: seq<string>): (r: seq<string>)
    ensures |r| == |gs|
  {
    seq(|gs|, i requires 0 <= i < |gs| => Lower(gs[i]))
  }

  lemma {:induction false} LowerJoin(items: seq<string>)
    ensures Lower(Join(items)) == Join(LowerAll(items))
  {
    hide Lower;
    if |items| == 0 {
      LowerEmpty();
    } else if |items| > 1 {
      LowerJoin(items[1..]);
      LowerConcat(items[0] + ":", Join(items[1..]));
      LowerConcat(items[0], ":");
      LowerColon();
      assert LowerAll(items)[1..] == LowerAll(items[1..]);
    }
  }

  lemma LowerEmpty()
    ensures Lower("") == ""
  {
  }

  lemma LowerColon()
    ensures Lower(":") == ":" && Lower("::") == "::"
  {
  }

  lemma LowerDigits(s: string)
    requires forall i :: 0 <= i < |s| ==> IsDigit(s[i]) || s[i] == '.'
    ensures Lower(s) == s
  {
  }

  lemma QuadTextChars(q: Quad)
    requires Digital(q)
    ensures forall i :: 0 <= i < |QuadText(q)| ==> IsDigit(QuadText(q)[i]) || QuadText(q)[i] == '.'
  {
  }

  function LowerSpelling(sp: Spelling): Spelling {
    match sp
    case Full(gs, q) => Full(LowerAll(gs), q)
    case Gapped(h, t, q) => Gapped(LowerAll(h), LowerAll(t), q)
  }

  lemma LowerItems(gs: seq<string>, q: Option<Quad>)
    requires q.Some? ==> Digital(q.value)
    ensures LowerAll(Items(gs, q)) == Items(LowerAll(gs), q)
  {
    if q.Some? {
      QuadTextChars(q.value);
      LowerDigits(QuadText(q.value));
    }
  }

  lemma LowerGroups(gs: seq<string>)
    requires AllGroups(gs)
    ensures AllGroups(LowerAll(gs)) && Values(LowerAll(gs)) == Values(gs)
  {
    forall i | 0 <= i < |gs| ensures Lower(Lower(gs[i])) == Lower(gs[i]) { LowerTwice(gs[i]); }
  }

  /** A spelling in another case is a spelling of the same words. */
  lemma LowerSpelled(sp: Spelling)
    requires Spelled(sp)
    ensures Lower(Render(sp)) == Render(LowerSpelling(sp))
    ensures Spelled(LowerSpelling(sp)) && Words(LowerSpelling(sp)) == Words(sp)
  {
    hide Lower, Join, AllGroups, Values, Items;
    match sp
    case Full(gs, q) =>
      LowerGroups(gs);
      LowerJoin(Items(gs, q));
      LowerItems(gs, q);
    case Gapped(h, t, q) =>
      LowerGroups(h);
      LowerGroups(t);
      LowerConcat(Join(h) + "::", Join(Items(t, q)));
      LowerConcat(Join(h), "::");
      LowerColon();
      LowerJoin(h);
      LowerJoin(Items(t, q));
      LowerItems(t, q);
  }

  // ----- Groups of digits -----

  /** Lower-case groups. */
  predicate Tokens(gs: seq<string>) {
    forall i :: 0 <= i < |gs| ==> 1 <= |gs[i]| <= 4 && AllHex(gs[i])
  }

  predicate Solid(s: string) {
    |s| > 0 && forall i :: 0 <= i < |s| ==> s[i] != ':'
  }

  predicate AllSolid(items: seq<string>) {
    forall i :: 0 <= i < |items| ==> Solid(items[i])
  }

  lemma TokensAreSolid(gs: seq<string>)
    requires Tokens(gs)
    ensures AllSolid(gs)
  {
  }

  lemma FirstColonIs(s: string, i: nat, k: nat)
    requires i <= k <= |s| && (forall j :: i <= j < k ==> s[j] != ':') && (k < |s| ==> s[k] == ':')
    ensures FirstColon(s, i) == k
  {
  }

  predicate NoColon(s: string) {
    forall i :: 0 <= i < |s| ==> s[i] != ':'
  }

  lemma SolidIs(s: string)
    ensures Solid(s) <==> |s| > 0 && NoColon(s)
  {
  }

  lemma SplitOne(x: string)
    requires NoColon(x)
    ensures Split(x) == [x]
  {
    FirstColonIs(x, 0, |x|);
  }

  lemma SplitFirst(x: string, rest: string)
    requires NoColon(x)
    ensures Split(x + ":" + rest) == [x] + Split(rest)
  {
    var s := x + ":" + rest;
    FirstColonIs(s, 0, |x|);
    assert s[..|x|] == x && s[|x| + 1..] == rest;
  }

  lemma {:induction false} SplitJoin(items: seq<string>)
    requires |items| > 0 && AllSolid(items)
    ensures Split(Join(items)) == items
  {
    hide Split, Solid, NoColon;
    SolidIs(items[0]);
    if |items| == 1 {
      SplitOne(items[0]);
    } else {
      SplitFirst(items[0], Join(items[1..]));
      SplitJoin(items[1..]);
      assert items == [items[0]] + items[1..];
    }
  }

  lemma {:induction false} JoinEnds(items: seq<string>)
    requires |items| > 0 && AllSolid(items)
    ensures var s := Join(items);
            && |s| > 0 && s[0] != ':' && s[|s| - 1] != ':'
            && forall j :: 0 <= j < |s| ==> !GapAt(s, j)
  {
    assert Solid(items[0]);
    if |items| > 1 {
      JoinEnds(items[1..]);
      var s, n, rest := Join(items), |items[0]|, Join(items[1..]);
      assert s == items[0] + ":" + rest;
      forall j | 0 <= j < |s| ensures !GapAt(s, j) {
        if j > n { assert GapAt(s, j) ==> GapAt(rest, j - n - 1); }
      }
    }
  }

  lemma FirstGapIs(s: string, i: nat, k: nat)
    requires i <= k <= |s| && (forall j :: i <= j < k ==> !GapAt(s, j)) && (k < |s| ==> GapAt(s, k))
    ensures FirstGap(s, i) == k
  {
  }

  lemma OneHalf(items: seq<string>)
    requires AllSolid(items)
    ensures Halves(Join(items)) == [Join(items)]
  {
    if |items| > 0 { JoinEnds(items); }
    FirstGapIs(Join(items), 0, |Join(items)|);
  }

  lemma TwoHalves(head: seq<string>, tail: seq<string>)
    requires AllSolid(head) && AllSolid(tail)
    ensures Halves(Join(head) + "::" + Join(tail)) == [Join(head), Join(tail)]
  {
    var a, b := Join(head), Join(tail);
    var s := a + "::" + b;
    if |head| > 0 { JoinEnds(head); }
    forall j | 0 <= j < |a| ensures !GapAt(s, j) {
      if j + 1 < |a| { assert !GapAt(a, j); }
    }
    FirstGapIs(s, 0, |a|);
    assert s[..|a|] == a && s[|a| + 2..] == b;
    OneHalf(tail);
  }

  function Some1(words: seq<nat>): (r: seq<Option<nat>>)
    ensures |r| == |words|
  {
    seq(|words|, i requires 0 <= i < |words| => Some(words[i]))
  }

  lemma AllSomeIs(words: seq<nat>)
    ensures AllSome(Some1(words)) == Some(words)
  {
    assert forall i :: 0 <= i < |words| ==> Some1(words)[i] == Some(words[i]);
    var r := AllSome(Some1(words));
    assert r.Some? && r.value == words;
  }

  lemma Some1Concat(a: seq<nat>, b: seq<nat>)
    ensures Some1(a + b) == Some1(a) + Some1(b)
  {
  }

  function TokenValues(gs: seq<string>): (r: seq<nat>)
    requires Tokens(gs)
    ensures |r| == |gs|
  {
    seq(|gs|, i requires 0 <= i < |gs| => HexValue(gs[i]))
  }

  lemma TokensAreWords(gs: seq<string>)
    requires Tokens(gs)
    ensures WordsIn(gs) == Some1(TokenValues(gs))
  {
    hide HexValue;
    forall i | 0 <= i < |gs| ensures WordsIn(gs)[i] == Some1(TokenValues(gs))[i] {
      assert 1 <= |gs[i]| <= 4 && AllHex(gs[i]);
    }
  }

  lemma TokensParse(gs: seq<string>)
    requires Tokens(gs)
    ensures ParseGroups(Join(gs)) == Some1(TokenValues(gs))
  {
    hide HexValue, WordsIn, Split;
    TokensAreWords(gs);
    if |gs| > 0 {
      TokensAreSolid(gs);
      SplitJoin(gs);
      JoinEnds(gs);
    } else {
      assert Join(gs) == "";
    }
  }

  /** Without a quad. */
  lemma FullReads(gs: seq<string>)
    requires Tokens(gs) && |gs| == 8
    ensures FromGroups(Join(gs)) == Some(TokenValues(gs))
  {
    hide Join, Halves, ParseGroups, AllSome, Some1, HexValue;
    TokensAreSolid(gs);
    OneHalf(gs);
    TokensParse(gs);
    var words := Some1(TokenValues(gs));
    assert words + NoWords(0) + [] == words;
    AllSomeIs(TokenValues(gs));
  }

  lemma HalvesRead(text: string, x: string, y: string, u: seq<nat>, v: seq<nat>)
    requires Halves(text) == [x, y] && ParseGroups(x) == Some1(u) && ParseGroups(y) == Some1(v) && |u| + |v| <= 7
    ensures FromGroups(text) == AllSome(Some1(u) + NoWords(8 - |u| - |v|) + Some1(v))
  {
    hide Halves, ParseGroups, AllSome, Some1, NoWords;
  }

  lemma GapFilled(u: seq<nat>, v: seq<nat>, n: nat)
    ensures Some1(u) + NoWords(n) + Some1(v) == Some1(u + Zeroes(n) + v)
  {
    hide Some1, NoWords, Zeroes;
    NoWordsAre(n);
    Some1Concat(u, Zeroes(n));
    Some1Concat(u + Zeroes(n), v);
  }

  lemma GappedReads(h: seq<string>, t: seq<string>)
    requires Tokens(h) && Tokens(t) && |h| + |t| <= 7
    ensures FromGroups(Join(h) + "::" + Join(t)) == Some(TokenValues(h) + Zeroes(8 - |h| - |t|) + TokenValues(t))
  {
    hide *;
    TokensAreSolid(h);
    TokensAreSolid(t);
    TwoHalves(h, t);
    TokensParse(h);
    TokensParse(t);
    HalvesRead(Join(h) + "::" + Join(t), Join(h), Join(t), TokenValues(h), TokenValues(t));
    GapFilled(TokenValues(h), TokenValues(t), 8 - |h| - |t|);
    AllSomeIs(TokenValues(h) + Zeroes(8 - |h| - |t|) + TokenValues(t));
  }

  lemma NoWordsAre(n: nat)
    ensures NoWords(n) == Some1(Zeroes(n))
  {
  }

  // ----- Quads -----

  lemma DigitsEndIs(s: string, i: nat, e: nat)
    requires i <= e <= |s| && (forall j :: i <= j < e ==> IsDigit(s[j])) && (e < |s| ==> !IsDigit(s[e]))
    ensures DigitsEnd(s, i) == e
    decreases e - i
  {
    if i < e { DigitsEndIs(s, i + 1, e); }
  }

  /** A quad reaches from i to the end with digits and dots only. */
  lemma QuadChars(s: string, i: nat, j: nat)
    requires i <= |s| && QuadAt(s, i).Some? && i <= j < |s|
    ensures IsDigit(s[j]) || s[j] == '.'
    ensures exists k :: i <= k < |s| && s[k] == '.'
  {
    var a := DigitsEnd(s, i);
    var b := DigitsEnd(s, a + 1);
    var c := DigitsEnd(s, b + 1);
    var d := DigitsEnd(s, c + 1);
    assert s[a] == '.';
    if j < a { assert s[j] == s[i..a][j - i]; }
    else if a < j < b { assert s[j] == s[a + 1..b][j - a - 1]; }
    else if b < j < c { assert s[j] == s[b + 1..c][j - b - 1]; }
    else if c < j { assert s[j] == s[c + 1..d][j - c - 1]; }
  }

  lemma {:induction false} FindNone(s: string, i: nat)
    requires i <= |s| && forall j :: 0 <= j < |s| ==> s[j] != '.'
    ensures FindQuad(s, i).None?
    decreases |s| - i
  {
    hide QuadAt;
    if QuadAt(s, i).Some? { QuadNotEmpty(s, i); QuadChars(s, i, i); }
    if i < |s| { FindNone(s, i + 1); }
  }

  lemma QuadNotEmpty(s: string, i: nat)
    requires i <= |s| && QuadAt(s, i).Some?
    ensures i < |s|
  {
  }

  /** Nothing that begins before a character that is neither digit nor dot is a quad. */
  lemma {:induction false} FindAfterOther(s: string, i: nat, at: nat, q: Quad)
    requires i <= at <= |s| && at > 0 && !IsDigit(s[at - 1]) && s[at - 1] != '.' && QuadAt(s, at) == Some(q)
    ensures FindQuad(s, i) == Some(Found(at, q))
    decreases at - i
  {
    hide QuadAt;
    if i < at {
      if QuadAt(s, i).Some? { QuadChars(s, i, at - 1); }
      FindAfterOther(s, i + 1, at, q);
    }
  }

  /** Digits x from i up to the next dot or the end. */
  lemma RunReads(s: string, i: nat, x: string, rest: string)
    requires AllDigits(x) && i <= |s| && s[i..] == x + rest && (rest != "" ==> !IsDigit(rest[0]))
    ensures i + |x| <= |s| && DigitsEnd(s, i) == i + |x| && s[i..i + |x|] == x && s[i + |x|..] == rest
  {
    var e := i + |x|;
    var t := s[i..];
    assert |t| == |x| + |rest|;
    forall j | i <= j < e ensures IsDigit(s[j]) { assert s[j] == t[j - i] == x[j - i]; }
    if e < |s| { assert s[e] == t[|x|] == rest[0]; }
    DigitsEndIs(s, i, e);
    assert s[i..e] == t[..|x|] && s[e..] == t[|x|..];
  }

  /** Digits x, and after a dot the rest. */
  lemma RunDot(s: string, i: nat, x: string, rest: string)
    requires AllDigits(x) && i <= |s| && s[i..] == x + "." + rest
    ensures var e := i + |x|;
            e + 1 <= |s| && DigitsEnd(s, i) == e && s[i..e] == x && DotAt(s, e) && s[e + 1..] == rest
  {
    assert x + "." + rest == x + ("." + rest);
    RunReads(s, i, x, "." + rest);
    var e := i + |x|;
    assert s[e] == s[e..][0] && s[e + 1..] == s[e..][1..] == rest;
  }

  lemma QuadTextSplits(q: Quad)
    ensures QuadText(q) == q.a + "." + (q.b + "." + (q.c + "." + q.d))
  {
  }

  lemma QuadParts(q: Quad)
    requires IsQuad(q)
    ensures AllDigits(q.a) && AllDigits(q.b) && AllDigits(q.c) && AllDigits(q.d)
    ensures |q.a| > 0 && |q.b| > 0 && |q.c| > 0 && |q.d| > 0
  {
  }

  /** At i stand the digits x, up to e, and then a dot. */
  predicate RunAt(s: string, i: nat, x: string, e: nat) {
    i + |x| == e < |s| && DigitsEnd(s, i) == e && s[i..e] == x && DotAt(s, e)
  }

  /** At i stand the digits x, to the end. */
  predicate LastRun(s: string, i: nat, x: string) {
    i + |x| == |s| && DigitsEnd(s, i) == |s| && s[i..] == x
  }

  lemma QuadAtIs(s: string, i: nat, q: Quad, a: nat, b: nat, c: nat)
    requires |q.a| > 0 && |q.b| > 0 && |q.c| > 0 && |q.d| > 0
    requires RunAt(s, i, q.a, a) && RunAt(s, a + 1, q.b, b) && RunAt(s, b + 1, q.c, c) && LastRun(s, c + 1, q.d)
    ensures QuadAt(s, i) == Some(q)
  {
    hide DigitsEnd, DotAt;
    assert s[c + 1..|s|] == s[c + 1..];
  }

  lemma DotRun(s: string, i: nat, x: string, rest: string, e: nat)
    requires AllDigits(x) && i <= |s| && s[i..] == x + "." + rest && e == i + |x|
    ensures RunAt(s, i, x, e) && s[e + 1..] == rest
  {
    RunDot(s, i, x, rest);
  }

  lemma FinalRun(s: string, i: nat, x: string)
    requires AllDigits(x) && i <= |s| && s[i..] == x
    ensures LastRun(s, i, x)
  {
    assert x + "" == x;
    RunReads(s, i, x, "");
  }

  lemma RunEnds(s: string, i: nat, x: string, e: nat)
    requires RunAt(s, i, x, e)
    ensures e < |s|
  {
  }

  lemma QuadTextReads(prefix: string, q: Quad)
    requires IsQuad(q)
    ensures QuadAt(prefix + QuadText(q), |prefix|) == Some(q)
  {
    hide *;
    var s, at := prefix + QuadText(q), |prefix|;
    assert s[at..] == QuadText(q);
    QuadReadsAt(s, at, q);
  }

  lemma QuadReadsAt(s: string, at: nat, q: Quad)
    requires IsQuad(q) && at <= |s| && s[at..] == QuadText(q)
    ensures QuadAt(s, at) == Some(q)
  {
    hide *;
    QuadParts(q);
    QuadTextSplits(q);
    var a := at + |q.a|;
    var b := a + 1 + |q.b|;
    var c := b + 1 + |q.c|;
    DotRun(s, at, q.a, q.b + "." + (q.c + "." + q.d), a);
    RunEnds(s, at, q.a, a);
    DotRun(s, a + 1, q.b, q.c + "." + q.d, b);
    RunEnds(s, a + 1, q.b, b);
    DotRun(s, b + 1, q.c, q.d, c);
    RunEnds(s, b + 1, q.c, c);
    FinalRun(s, c + 1, q.d);
    QuadAtIs(s, at, q, a, b, c);
  }

  lemma {:induction false} HexReads(n: nat, digits: nat)
    requires digits >= 1 && n < Sixteens(digits)
    ensures HexValue(Hex(n)) == n && 1 <= |Hex(n)| <= digits
  {
    var s := Hex(n);
    if n >= 16 {
      HexReads(n / 16, digits - 1);
      assert s[..|s| - 1] == Hex(n / 16);
    } else {
      assert s[..0] == "";
    }
  }

  function Sixteens(k: nat): (p: nat)
    ensures p > 0
  {
    if k == 0 then 1 else 16 * Sixteens(k - 1)
  }

  // ----- All spellings -----

  lemma {:induction false} JoinAppend(items: seq<string>, x: string)
    requires |items| > 0
    ensures Join(items + [x]) == Join(items) + ":" + x
  {
    if |items| == 1 {
      assert (items + [x])[1..] == [x];
    } else {
      assert (items + [x])[1..] == items[1..] + [x];
      JoinAppend(items[1..], x);
      assert items[0] + ":" + (Join(items[1..]) + ":" + x) == Join(items) + ":" + x;
    }
  }

  predicate NoDot(s: string) {
    forall j :: 0 <= j < |s| ==> s[j] != '.'
  }

  lemma {:induction false} JoinNoDot(gs: seq<string>)
    requires Tokens(gs)
    ensures NoDot(Join(gs))
  {
    if |gs| > 0 {
      assert NoDot(gs[0]);
      JoinNoDot(gs[1..]);
    }
  }

  /** The two groups a quad is rewritten as. */
  function HexPair(q: Quad): seq<string>
    requires Digital(q)
  {
    [Hex(HighWord(q)), Hex(LowWord(q))]
  }

  lemma HexPairReads(gs: seq<string>, q: Quad)
    requires Tokens(gs) && IsQuad(q)
    ensures Tokens(gs + HexPair(q)) && TokenValues(gs + HexPair(q)) == TokenValues(gs) + [HighWord(q), LowWord(q)]
  {
    hide Hex, HexValue, Decimal;
    assert Sixteens(4) == 65536;
    HexReads(HighWord(q), 4);
    HexReads(LowWord(q), 4);
  }

  /** What stands before a final item, which is only put after it. */
  function Before(gs: seq<string>): string {
    if |gs| == 0 then "" else Join(gs) + ":"
  }

  lemma JoinWithQuad(gs: seq<string>, q: Quad)
    requires Digital(q)
    ensures Join(Items(gs, Some(q))) == Before(gs) + QuadText(q)
    ensures Join(gs + HexPair(q)) == Before(gs) + Hex(HighWord(q)) + ":" + Hex(LowWord(q))
  {
    hide Hex, QuadText, HighWord, LowWord;
    var x, y := Hex(HighWord(q)), Hex(LowWord(q));
    assert gs + HexPair(q) == gs + [x] + [y];
    JoinAppend(gs + [x], y);
    if |gs| > 0 {
      JoinAppend(gs, QuadText(q));
      JoinAppend(gs, x);
    } else {
      assert gs + [x] == [x] && gs + [QuadText(q)] == [QuadText(q)];
    }
  }

  /** Rewriting a quad that stands after anything but a digit or a dot. */
  lemma QuadRewritten(address: string, prefix: string, q: Quad)
    requires IsQuad(q) && Lower(address) == prefix + QuadText(q) && |prefix| > 0
    requires !IsDigit(prefix[|prefix| - 1]) && prefix[|prefix| - 1] != '.'
    ensures Ipv6Words(address) == FromGroups(prefix + Hex(HighWord(q)) + ":" + Hex(LowWord(q)))
  {
    hide QuadText, QuadAt, FromGroups, Hex, Lower, HighWord, LowWord;
    var text := prefix + QuadText(q);
    QuadTextReads(prefix, q);
    FindAfterOther(text, 0, |prefix|, q);
    assert text[..|prefix|] == prefix;
  }

  lemma NoQuad(address: string)
    requires NoDot(Lower(address))
    ensures Ipv6Words(address) == FromGroups(Lower(address))
  {
    hide FromGroups;
    FindNone(Lower(address), 0);
  }

  lemma LoweredTokens(gs: seq<string>)
    requires AllGroups(gs)
    ensures Tokens(LowerAll(gs)) && TokenValues(LowerAll(gs)) == Values(gs)
  {
    hide HexValue, AllHex;
  }

  lemma FullSpelling(address: string, gs: seq<string>, q: Option<Quad>)
    requires Tokens(gs) && (q.Some? ==> IsQuad(q.value)) && |gs| + QuadSize(q) == 8
    requires Lower(address) == Join(Items(gs, q))
    ensures Ipv6Words(address) == Some(TokenValues(gs) + QuadValues(q))
  {
    hide Tokens, TokenValues, Lower, Join, FromGroups, Ipv6Words, HexPair, IsQuad, HighWord, LowWord, NoDot;
    if q.None? {
      JoinNoDot(gs);
      NoQuad(address);
      FullReads(gs);
      assert TokenValues(gs) + [] == TokenValues(gs);
    } else {
      QuadIsDigital(q.value);
      JoinWithQuad(gs, q.value);
      QuadRewritten(address, Before(gs), q.value);
      HexPairReads(gs, q.value);
      PairSize(q.value);
      FullReads(gs + HexPair(q.value));
    }
  }

  lemma QuadIsDigital(q: Quad)
    requires IsQuad(q)
    ensures Digital(q)
  {
  }

  lemma PairSize(q: Quad)
    requires Digital(q)
    ensures |HexPair(q)| == 2
  {
  }

  lemma Regroup<T>(a: seq<T>, b: seq<T>, c: seq<T>)
    ensures a + (b + c) == a + b + c
  {
  }

  lemma GappedPlain(address: string, h: seq<string>, t: seq<string>)
    requires Tokens(h) && Tokens(t) && |h| + |t| <= 7
    requires Lower(address) == Join(h) + "::" + Join(t)
    ensures Ipv6Words(address) == Some(TokenValues(h) + Zeroes(8 - |h| - |t|) + TokenValues(t))
  {
    hide Tokens, TokenValues, Lower, Join, FromGroups, Ipv6Words, Zeroes;
    JoinNoDot(h);
    JoinNoDot(t);
    NoQuad(address);
    GappedReads(h, t);
  }

  lemma GappedQuad(address: string, h: seq<string>, t: seq<string>, q: Quad)
    requires Tokens(h) && Tokens(t) && IsQuad(q) && |h| + |t| <= 5
    requires Lower(address) == Join(h) + "::" + Join(Items(t, Some(q)))
    ensures Ipv6Words(address) == FromGroups(Join(h) + "::" + Join(t + HexPair(q)))
  {
    hide *;
    var prefix := Join(h) + "::" + Before(t);
    QuadIsDigital(q);
    JoinWithQuad(t, q);
    var x, y := Hex(HighWord(q)), Hex(LowWord(q));
    Regroup(Join(h) + "::", Before(t), QuadText(q));
    BeforeEnds(Join(h), t);
    QuadRewritten(address, prefix, q);
    Regroup(Join(h) + "::", Before(t), x);
    Regroup(Join(h) + "::", Before(t) + x, ":");
    Regroup(Join(h) + "::", Before(t) + x + ":", y);
  }

  lemma BeforeEnds(a: string, t: seq<string>)
    ensures var prefix := a + "::" + Before(t);
            |prefix| > 0 && !IsDigit(prefix[|prefix| - 1]) && prefix[|prefix| - 1] != '.'
  {
  }

  lemma GappedQuadReads(address: string, h: seq<string>, t: seq<string>, q: Quad)
    requires Tokens(h) && Tokens(t) && IsQuad(q) && |h| + |t| <= 5
    requires Lower(address) == Join(h) + "::" + Join(Items(t, Some(q)))
    ensures Ipv6Words(address) == Some(TokenValues(h) + Zeroes(6 - |h| - |t|) + TokenValues(t) + [HighWord(q), LowWord(q)])
  {
    hide *;
    QuadIsDigital(q);
    GappedQuad(address, h, t, q);
    HexPairReads(t, q);
    PairSize(q);
    GappedReads(h, t + HexPair(q));
    Regroup(TokenValues(h) + Zeroes(6 - |h| - |t|), TokenValues(t), [HighWord(q), LowWord(q)]);
  }

  lemma GappedSpelling(address: string, h: seq<string>, t: seq<string>, q: Option<Quad>)
    requires Tokens(h) && Tokens(t) && (q.Some? ==> IsQuad(q.value)) && |h| + |t| + QuadSize(q) <= 7
    requires Lower(address) == Join(h) + "::" + Join(Items(t, q))
    ensures Ipv6Words(address)
      == Some(TokenValues(h) + Zeroes(8 - |h| - |t| - QuadSize(q)) + TokenValues(t) + QuadValues(q))
  {
    hide Tokens, TokenValues, Lower, Join, FromGroups, Ipv6Words, HexPair, IsQuad, HighWord, LowWord, Zeroes, QuadText, Hex;
    if q.None? {
      GappedPlain(address, h, t);
      var words := TokenValues(h) + Zeroes(8 - |h| - |t|) + TokenValues(t);
      assert words + [] == words;
    } else {
      QuadIsDigital(q.value);
      GappedQuadReads(address, h, t, q.value);
    }
  }

  /** Every spelling of eight words reads as those words. */
  lemma SpellingReads(sp: Spelling)
    requires Spelled(sp)
    ensures Ipv6Words(Render(sp)) == Some(Words(sp))
  {
    hide Lower, AllGroups, Values, Items, Join, Tokens, TokenValues, Ipv6Words, IsQuad, QuadValues;
    LowerSpelled(sp);
    match sp
    case Full(gs, q) =>
      LoweredTokens(gs);
      FullSpelling(Render(sp), LowerAll(gs), q);
    case Gapped(h, t, q) =>
      LoweredTokens(h);
      LoweredTokens(t);
      GappedSpelling(Render(sp), LowerAll(h), LowerAll(t), q);
  }

  // ----- Only spellings -----

  lemma {:induction false} JoinSplit(s: string)
    ensures |Split(s)| > 0 && Join(Split(s)) == s
    decreases |s|
  {
    var k := FirstColon(s, 0);
    if k < |s| {
      var rest := Split(s[k + 1..]);
      JoinSplit(s[k + 1..]);
      assert ([s[..k]] + rest)[1..] == rest;
      assert s == s[..k] + ":" + s[k + 1..];
    }
  }

  /** The groups of a half. */
  function GroupsOf(half: string): seq<string> {
    if half == "" then [] else Split(half)
  }

  lemma HalfIsJoined(half: string)
    ensures Join(GroupsOf(half)) == half && |ParseGroups(half)| == |GroupsOf(half)|
  {
    hide Split;
    if half != "" { JoinSplit(half); }
  }

  predicate NoneMissing(words: seq<Option<nat>>) {
    forall i :: 0 <= i < |words| ==> words[i].Some?
  }

  lemma ParsedTokens(half: string)
    requires NoneMissing(ParseGroups(half))
    ensures Tokens(GroupsOf(half))
  {
    hide Split, HexValue;
    if half != "" {
      var gs := Split(half);
      forall i | 0 <= i < |gs| ensures 1 <= |gs[i]| <= 4 && AllHex(gs[i]) {
        assert WordsIn(gs)[i].Some?;
      }
    }
  }

  lemma MissingNone(a: seq<Option<nat>>, b: seq<Option<nat>>, c: seq<Option<nat>>)
    requires AllSome(a + b + c).Some?
    ensures NoneMissing(a) && NoneMissing(c)
  {
    var all := a + b + c;
    assert NoneMissing(all);
    forall i | 0 <= i < |a| ensures a[i].Some? { assert all[i] == a[i]; }
    forall i | 0 <= i < |c| ensures c[i].Some? { assert all[|a + b| + i] == c[i]; }
  }

  lemma HalvesJoin(s: string)
    ensures |Halves(s)| == 1 ==> s == Halves(s)[0]
    ensures |Halves(s)| == 2 ==> s == Halves(s)[0] + "::" + Halves(s)[1]
  {
    var k := FirstGap(s, 0);
    if k < |s| {
      var rest := Halves(s[k + 2..]);
      if |rest| == 1 {
        assert FirstGap(s[k + 2..], 0) == |s[k + 2..]|;
        assert s == s[..k] + "::" + s[k + 2..];
      }
    }
  }

  /** The spelling a text without dots is read by. */
  function SpellingOf(text: string): Spelling {
    var halves := Halves(text);
    if |halves| == 1 then Full(GroupsOf(halves[0]), None)
    else Gapped(GroupsOf(halves[0]), GroupsOf(halves[1]), None)
  }

  lemma TokensAreGroups(gs: seq<string>)
    requires Tokens(gs)
    ensures AllGroups(gs) && Values(gs) == TokenValues(gs)
  {
    forall i | 0 <= i < |gs| ensures Lower(gs[i]) == gs[i] { LowerHex(gs[i]); }
  }

  lemma LowerHex(s: string)
    requires AllHex(s)
    ensures Lower(s) == s
  {
  }

  lemma ReadIsSpelled(text: string)
    requires FromGroups(text).Some?
    ensures Spelled(SpellingOf(text)) && Render(SpellingOf(text)) == text
  {
    hide Halves, ParseGroups, AllSome, GroupsOf, Join, Tokens, AllGroups, NoWords;
    var halves := Halves(text);
    HalvesJoin(text);
    var head := ParseGroups(halves[0]);
    var rest := if |halves| == 2 then ParseGroups(halves[1]) else [];
    MissingNone(head, NoWords(8 - |head| - |rest|), rest);
    HalfIsJoined(halves[0]);
    ParsedTokens(halves[0]);
    TokensAreGroups(GroupsOf(halves[0]));
    if |halves| == 2 {
      HalfIsJoined(halves[1]);
      ParsedTokens(halves[1]);
      TokensAreGroups(GroupsOf(halves[1]));
    }
  }

  // ----- Only spellings, with a quad -----

  lemma SplitLast(x: string, y: string)
    requires NoColon(y)
    ensures Split(x + ":" + y) == Split(x) + [y]
    decreases |x|
  {
    hide Split, NoColon;
    var k := FirstColon(x, 0);
    HeadHasNone(x);
    SplitOne(y);
    if k == |x| {
      assert x[..k] == x;
      SplitFirst(x, y);
      SplitOne(x);
    } else {
      var h, t := x[..k], x[k + 1..];
      assert x == h + ":" + t;
      assert x + ":" + y == h + ":" + (t + ":" + y);
      SplitFirst(h, t + ":" + y);
      SplitFirst(h, t);
      SplitLast(t, y);
    }
  }

  lemma HeadHasNone(x: string)
    ensures NoColon(x[..FirstColon(x, 0)])
  {
  }

  /** Two groups after nothing or after a colon are the last two. */
  lemma LastTwo(r: string, x: string, y: string) returns (init: seq<string>)
    requires Solid(x) && Solid(y) && (r == "" || r[|r| - 1] == ':')
    ensures GroupsOf(r + x + ":" + y) == init + [x, y] && Before(init) == r
  {
    hide Split, Join, Solid, NoColon;
    SolidIs(x);
    SolidIs(y);
    if r == "" {
      init := [];
      assert "" + x == x;
      SplitLast(x, y);
      SplitOne(x);
    } else {
      var before := r[..|r| - 1];
      assert r == before + ":";
      SplitLast(before, x);
      SplitLast(before + ":" + x, y);
      JoinSplit(before);
      init := Split(before);
      assert init + [x] + [y] == init + [x, y];
    }
  }

  lemma HexSolid(n: nat)
    ensures Solid(Hex(n))
  {
    var s := Hex(n);
    assert |s| > 0;
    forall i | 0 <= i < |s| ensures s[i] != ':' { assert IsHex(s[i]); }
  }

  /** The first gap of a text that ends in two groups comes before them. */
  lemma GapBefore(prefix: string, x: string, y: string, k: nat)
    requires |prefix| > 0 && prefix[|prefix| - 1] == ':' && Solid(x) && Solid(y)
    requires GapAt(prefix + x + ":" + y, k)
    ensures k + 2 <= |prefix|
  {
    var s, n, m := prefix + x + ":" + y, |prefix|, |prefix| + |x|;
    assert s[n] == x[0] && s[m] == ':' && s[m + 1] == y[0];
  }

  lemma RunText(s: string, i: nat, e: nat)
    requires i <= |s| && e == DigitsEnd(s, i) && DotAt(s, e)
    ensures AllDigits(s[i..e]) && s[i..] == s[i..e] + "." + s[e + 1..]
  {
    hide DigitsEnd;
  }

  /** Where a quad's numbers end. */
  lemma QuadEnds(s: string, at: nat) returns (a: nat, b: nat, c: nat)
    requires at <= |s| && QuadAt(s, at).Some?
    ensures at < a && a + 1 < b && b + 1 < c && c + 1 < |s|
    ensures a == DigitsEnd(s, at) && b == DigitsEnd(s, a + 1) && c == DigitsEnd(s, b + 1) && |s| == DigitsEnd(s, c + 1)
    ensures DotAt(s, a) && DotAt(s, b) && DotAt(s, c)
    ensures QuadAt(s, at) == Some(Quad(s[at..a], s[a + 1..b], s[b + 1..c], s[c + 1..]))
  {
    a := DigitsEnd(s, at);
    b := DigitsEnd(s, a + 1);
    c := DigitsEnd(s, b + 1);
    assert s[c + 1..|s|] == s[c + 1..];
  }

  lemma LastDigits(s: string, i: nat)
    requires i < |s| && DigitsEnd(s, i) == |s|
    ensures AllDigits(s[i..])
  {
    assert s[i..|s|] == s[i..];
  }

  /** The text of a quad that was found. */
  lemma QuadAtText(s: string, at: nat)
    requires at <= |s| && QuadAt(s, at).Some?
    ensures var q := QuadAt(s, at).value;
            s[at..] == QuadText(q) && Digital(q) && q.a != "" && q.b != "" && q.c != "" && q.d != ""
  {
    hide DigitsEnd, QuadAt, DotAt, QuadText, AllDigits;
    var a, b, c := QuadEnds(s, at);
    RunText(s, at, a);
    RunText(s, a + 1, b);
    RunText(s, b + 1, c);
    LastDigits(s, c + 1);
    QuadTextSplits(QuadAt(s, at).value);
  }

  /** The halves of the text a quad after a colon is rewritten to. */
  lemma RewrittenHalves(prefix: string, x: string, y: string) returns (gapped: bool, h: string, r: string)
    requires |prefix| > 0 && prefix[|prefix| - 1] == ':' && Solid(x) && Solid(y)
    requires |Halves(prefix + x + ":" + y)| <= 2
    ensures r == "" || r[|r| - 1] == ':'
    ensures gapped ==> prefix == h + "::" + r && Halves(prefix + x + ":" + y) == [h, r + x + ":" + y]
    ensures !gapped ==> prefix == r && Halves(prefix + x + ":" + y) == [prefix + x + ":" + y]
  {
    var s := prefix + x + ":" + y;
    var k := FirstGap(s, 0);
    gapped, h, r := false, "", prefix;
    if k < |s| {
      GapBefore(prefix, x, y, k);
      gapped, h, r := true, s[..k], prefix[k + 2..];
      assert s[k + 2..] == r + x + ":" + y;
      assert s[k..k + 2] == "::" == prefix[k..k + 2];
      assert prefix == prefix[..k] + prefix[k..k + 2] + prefix[k + 2..];
    }
  }

  /** A quad after a colon that is read belongs to a spelling. */
  lemma QuadIsSpelled(text: string, prefix: string, q: Quad) returns (sp: Spelling)
    requires IsQuad(q) && text == prefix + QuadText(q) && |prefix| > 0 && prefix[|prefix| - 1] == ':'
    requires FromGroups(prefix + Hex(HighWord(q)) + ":" + Hex(LowWord(q))).Some?
    ensures Spelled(sp) && Render(sp) == text
  {
    hide Split, Join, Hex, HighWord, LowWord, QuadText, FromGroups, Halves, IsQuad, AllGroups, Solid, Before;
    QuadIsDigital(q);
    var x, y := Hex(HighWord(q)), Hex(LowWord(q));
    HexSolid(HighWord(q));
    HexSolid(LowWord(q));
    ReadIsSpelled(prefix + x + ":" + y);
    FewHalves(prefix + x + ":" + y);
    var gapped, h, r := RewrittenHalves(prefix, x, y);
    var init := LastTwo(r, x, y);
    FirstGroups(init, x, y);
    JoinWithQuad(init, q);
    if gapped {
      HalfIsJoined(h);
      sp := Gapped(GroupsOf(h), init, Some(q));
      Regroup(h + "::", r, QuadText(q));
    } else {
      sp := Full(init, Some(q));
    }
  }

  lemma FewHalves(text: string)
    requires FromGroups(text).Some?
    ensures |Halves(text)| <= 2
  {
  }

  lemma FirstGroups(init: seq<string>, x: string, y: string)
    ensures AllGroups(init + [x, y]) ==> AllGroups(init)
  {
    forall i | 0 <= i < |init| && AllGroups(init + [x, y]) ensures IsGroup(init[i]) {
      assert (init + [x, y])[i] == init[i];
    }
  }

  /** Two groups alone are no address. */
  lemma QuadAlone(q: Quad)
    requires IsQuad(q)
    ensures FromGroups([] + Hex(HighWord(q)) + ":" + Hex(LowWord(q))).None?
  {
    hide Hex, Join, Halves, ParseGroups, HighWord, LowWord, AllSome;
    var none: seq<string> := [];
    HexPairReads(none, q);
    var gs := none + HexPair(q);
    TokensAreSolid(gs);
    JoinWithQuad(none, q);
    OneHalf(gs);
    TokensParse(gs);
  }

  /** A dotted quad that continues a group, or stands alone. */
  predicate Glued(text: string) {
    var found := FindQuad(text, 0);
    found.Some? && (found.value.at == 0 || text[found.value.at - 1] != ':')
  }

  /** What stands before a spelling's quad. */
  function QuadPrefix(sp: Spelling): string {
    match sp
    case Full(gs, q) => Before(gs)
    case Gapped(h, t, q) => Join(h) + "::" + Before(t)
  }

  lemma PrefixStands(sp: Spelling)
    requires Spelled(sp) && sp.quad.Some?
    ensures var prefix := QuadPrefix(sp);
            && Render(sp) == prefix + QuadText(sp.quad.value)
            && |prefix| > 0 && prefix[|prefix| - 1] == ':'
  {
    hide Join, QuadText, IsQuad, AllGroups;
    var q := sp.quad.value;
    QuadIsDigital(q);
    match sp
    case Full(gs, _) => JoinWithQuad(gs, q);
    case Gapped(h, t, _) =>
      JoinWithQuad(t, q);
      Regroup(Join(h) + "::", Before(t), QuadText(q));
  }

  lemma PlainHasNoDot(sp: Spelling)
    requires Spelled(sp) && sp.quad.None?
    ensures NoDot(Lower(Render(sp)))
  {
    hide Join, Tokens, AllGroups, NoDot, Lower;
    LowerSpelled(sp);
    match sp
    case Full(gs, _) =>
      LoweredTokens(gs);
      JoinNoDot(LowerAll(gs));
    case Gapped(h, t, _) =>
      LoweredTokens(h);
      LoweredTokens(t);
      JoinNoDot(LowerAll(h));
      JoinNoDot(LowerAll(t));
      GapNoDot(Join(LowerAll(h)), Join(LowerAll(t)));
  }

  lemma GapNoDot(a: string, b: string)
    requires NoDot(a) && NoDot(b)
    ensures NoDot(a + "::" + b)
  {
  }

  lemma QuadFoundThere(sp: Spelling)
    requires Spelled(sp) && sp.quad.Some?
    ensures FindQuad(Render(sp), 0) == Some(Found(|QuadPrefix(sp)|, sp.quad.value))
  {
    hide QuadPrefix, QuadText, QuadAt, Render, Spelled;
    PrefixStands(sp);
    SpelledQuad(sp);
    QuadTextReads(QuadPrefix(sp), sp.quad.value);
    FindAfterOther(Render(sp), 0, |QuadPrefix(sp)|, sp.quad.value);
  }

  lemma SpelledQuad(sp: Spelling)
    requires Spelled(sp) && sp.quad.Some?
    ensures IsQuad(sp.quad.value)
  {
  }

  /** A spelling's quad stands after a colon. */
  lemma SpelledNotGlued(sp: Spelling)
    requires Spelled(sp)
    ensures !Glued(Lower(Render(sp)))
  {
    hide Render, Spelled, Lower, QuadPrefix, QuadText;
    LowerSpelled(sp);
    var low := LowerSpelling(sp);
    if sp.quad.Some? {
      QuadFoundThere(low);
      PrefixStands(low);
    } else {
      PlainHasNoDot(sp);
      FindNone(Lower(Render(sp)), 0);
    }
  }

  lemma ReadNotGlued(address: string) returns (sp: Spelling)
    requires Ipv6Words(address).Some? && !Glued(Lower(address))
    ensures Spelled(sp) && Render(sp) == Lower(address)
  {
    hide Lower, FromGroups, Spelled, Render, QuadAt, QuadText, Hex, HighWord, LowWord, SpellingOf, Octets;
    var text := Lower(address);
    var found := FindQuad(text, 0);
    if found.None? {
      ReadIsSpelled(text);
      sp := SpellingOf(text);
    } else {
      var at, q := found.value.at, found.value.quad;
      QuadAtText(text, at);
      ReadQuad(q);
      assert text == text[..at] + text[at..];
      sp := QuadIsSpelled(text, text[..at], q);
    }
  }

  lemma ReadQuad(q: Quad)
    ensures Digital(q) && Octets(q) && q.a != "" && q.b != "" && q.c != "" && q.d != "" ==> IsQuad(q)
  {
  }

  /** A text reads as eight words without a glued quad exactly when, case aside, it is a spelling of them. */
  lemma ReadsOnlySpellings(address: string, words: seq<nat>)
    ensures Ipv6Words(address) == Some(words) && !Glued(Lower(address))
      <==> exists sp :: Spelled(sp) && Render(sp) == Lower(address) && Words(sp) == words
  {
    hide Lower, FromGroups, Spelled, Render, Words, Glued, Ipv6Words;
    var text := Lower(address);
    SameWords(address);
    forall sp | Spelled(sp) && Render(sp) == text ensures Ipv6Words(text) == Some(Words(sp)) && !Glued(text) {
      SpellingReads(sp);
      SpelledNotGlued(sp);
      LowerTwice(address);
    }
    if Ipv6Words(address).Some? && !Glued(text) {
      var sp := ReadNotGlued(address);
      assert Spelled(sp) && Render(sp) == text;
    }
  }

  lemma SameWords(address: string)
    ensures Ipv6Words(Lower(address)) == Ipv6Words(address)
  {
    hide Lower, FromGroups, FindQuad, Hex;
    LowerTwice(address);
  }

  /** With a dotted quad found in it, a text that is read is a spelling exactly when the quad stands after a colon. */
  lemma DottedSpelling(address: string, at: nat, q: Quad)
    requires FindQuad(Lower(address), 0) == Some(Found(at, q)) && Ipv6Words(address).Some?
    ensures at > 0
    ensures (exists sp :: Spelled(sp) && Render(sp) == Lower(address) && Words(sp) == Ipv6Words(address).value)
      <==> Lower(address)[at - 1] == ':'
  {
    hide Lower, FromGroups, Spelled, Render, Words, QuadAt, Hex, HighWord, LowWord, Octets, FindQuad;
    ReadsOnlySpellings(address, Ipv6Words(address).value);
    QuadAtText(Lower(address), at);
    ReadQuad(q);
    if at == 0 { QuadAlone(q); }
  }

  /** A quad is rewritten even where it continues a group, so `Ipv6Words` alone reads some texts that are no spelling. */
  lemma GluedQuad()
    ensures Ipv6Words("::a1.2.3.4") == Some([0, 0, 0, 0, 0, 0, 0xA102, 0x304])
    ensures !exists sp :: Spelled(sp) && Render(sp) == "::a1.2.3.4"
  {
    hide FromGroups, Ipv6Words, GroupsOf, QuadAt, Spelled, Render, QuadText;
    var q := Quad("1", "2", "3", "4");
    GluedText(q);
    QuadOf1234();
    QuadRewritten("::a1.2.3.4", "::a", q);
    GluedRead();
    QuadTextReads("::a", q);
    FindAfterOther("::a1.2.3.4", 0, 3, q);
    assert Glued(Lower("::a1.2.3.4"));
    forall sp | Spelled(sp) ensures Render(sp) != "::a1.2.3.4" { SpelledNotGlued(sp); }
  }

  lemma GluedText(q: Quad)
    requires q == Quad("1", "2", "3", "4")
    ensures Lower("::a1.2.3.4") == "::a1.2.3.4" == "::a" + QuadText(q)
  {
  }

  lemma GluedRead()
    ensures FromGroups("::a" + "102" + ":" + "304") == Some([0, 0, 0, 0, 0, 0, 0xA102, 0x304])
  {
    hide FromGroups, Join, HexValue;
    var gs := ["a102", "304"];
    GluedJoin();
    GappedReads([], gs);
    ValuesOfA102();
    assert TokenValues([]) + Zeroes(6) + TokenValues(gs) == [0, 0, 0, 0, 0, 0, 0xA102, 0x304];
  }

  lemma GluedJoin()
    ensures Join([]) + "::" + Join(["a102", "304"]) == "::a" + "102" + ":" + "304"
  {
    var gs := ["a102", "304"];
    assert gs[1..] == ["304"];
    assert Join(gs) == "a102:304" && Join([]) == "";
  }

  lemma QuadOf1234()
    ensures var q := Quad("1", "2", "3", "4");
            IsQuad(q) && Hex(HighWord(q)) == "102" && Hex(LowWord(q)) == "304"
  {
    hide Hex;
    assert Decimal("1") == 1 && Decimal("2") == 2 && Decimal("3") == 3 && Decimal("4") == 4;
    HexOf102();
  }

  lemma HexOf102()
    ensures Hex(0x102) == "102" && Hex(0x304) == "304"
  {
    assert Hex(1) == "1" && Hex(16) == "10";
    assert Hex(3) == "3" && Hex(48) == "30";
  }

  lemma ValuesOfA102()
    ensures HexValue("a102") == 0xA102 && HexValue("304") == 0x304
  {
    assert "a102"[..3] == "a10" && "a10"[..2] == "a1" && "a1"[..1] == "a" && "a"[..0] == "";
    assert "304"[..2] == "30" && "30"[..1] == "3" && "3"[..0] == "";
    assert HexValue("a") == 10 && HexValue("a1") == 161 && HexValue("a10") == 2576;
    assert HexValue("3") == 3 && HexValue("30") == 48;
  }
}
