/** Base32 (section 6 of RFC 4648) over a 32-bit accumulator that silently drops its high bits. */
module Base32 {
  import opened Options
  import opened Bits
  import opened Buffers

  const ALPHABET: string := "ABCDEFGHIJKLMNOPQRSTUVWXYZ234567"

  const WORD: nat := 0x1_0000_0000

  /** value << k on 32 bits; the sign is of no account to what is read with >>> and a mask. */
  function Shl(value: nat, k: nat): nat {
    value * Pow2(k) % WORD
  }

  // ----- What the accumulator holds -----

  /** The low bits of the accumulator are the bits not yet taken. */
  predicate Carries(value: nat, pending: seq<bool>) {
    value < WORD && |pending| <= 32 && value % Pow2(|pending|) == ValueOf(pending)
  }

  lemma WordIs()
    ensures Pow2(32) == WORD
  {
    assert Pow2(8) == 256;
    Pow2Add(8, 8);
    Pow2Add(16, 16);
  }

  lemma ModMod(n: nat, a: nat, b: nat)
    requires a > 0 && b > 0
    ensures n % (a * b) % a == n % a
    ensures a * b > 0
  {
    assert a * b > 0;
    var q, r := n / (a * b), n % (a * b);
    var p, s := r / a, r % a;
    assert n == q * (a * b) + r;
    assert r == p * a + s;
    Regrouped(n, a, b, q, p, s);
  }

  lemma Regrouped(n: nat, a: nat, b: nat, q: nat, p: nat, s: nat)
    requires a > 0 && s < a && n == q * (a * b) + (p * a + s)
    ensures n % a == s
  {
    hide *;
    Twice(q, a, b);
    Spread(q * b, p, a);
    QuotientIs(n, a, q * b + p, s);
  }

  lemma Twice(q: nat, a: nat, b: nat)
    ensures q * (a * b) == (q * b) * a
  {
  }

  lemma Spread(x: nat, y: nat, a: nat)
    ensures (x + y) * a == x * a + y * a
  {
  }

  lemma Distribute(value: nat, q: nat, p: nat, r: nat, d: nat)
    requires value == q * p + r
    ensures value * d == q * (p * d) + r * d
  {
    assert (q * p) * d == q * (p * d);
  }

  lemma BelowProduct(r: nat, p: nat, x: nat, d: nat)
    requires r < p && x < d
    ensures r * d + x < p * d
  {
    Gap(r, p, d);
  }

  /** The low bits a shift frees take x without carrying. */
  lemma ShiftedWord(value: nat, d: nat, e: nat, x: nat)
    requires d > 0 && e > 0 && x < d && d * e == WORD
    ensures value * d % WORD + x < WORD
    ensures value * d % WORD + x == (value * d + x) % WORD
  {
    var q, r := value / e, value % e;
    Distribute(value, q, e, r, d);
    assert e * d == WORD;
    BelowProduct(r, e, x, d);
    BelowProduct(r, e, 0, d);
    QuotientIs(value * d, WORD, q, r * d);
    QuotientIs(value * d + x, WORD, q, r * d + x);
  }

  lemma ProductPositive(p: nat, d: nat)
    requires p > 0 && d > 0
    ensures p * d > 0
  {
  }

  lemma PushedParts(value: nat, p: nat, d: nat, x: nat, q: nat, r: nat)
    requires d > 0 && x < d && value == q * p + r && r < p
    ensures p * d > 0 && (value * d + x) % (p * d) == r * d + x
  {
    Distribute(value, q, p, r, d);
    BelowProduct(r, p, x, d);
    QuotientIs(value * d + x, p * d, q, r * d + x);
  }

  lemma Pushed(value: nat, p: nat, d: nat, e: nat, x: nat)
    requires p > 0 && d > 0 && e > 0 && x < d && (p * d) * e == WORD && d * (p * e) == WORD
    ensures value * d % WORD + x < WORD && p * d > 0
    ensures (value * d % WORD + x) % (p * d) == value % p * d + x
  {
    var q, r := value / p, value % p;
    PushedParts(value, p, d, x, q, r);
    var m, f, n := p * d, p * e, value * d + x;
    ProductPositive(p, e);
    ShiftedWord(value, d, f, x);
    ModMod(n, m, e);
  }

  lemma Powers(m: nat, k: nat)
    requires m + k <= 32
    ensures Pow2(m + k) == Pow2(m) * Pow2(k)
    ensures (Pow2(m) * Pow2(k)) * Pow2(32 - (m + k)) == WORD
    ensures Pow2(k) * (Pow2(m) * Pow2(32 - (m + k))) == WORD
  {
    hide Pow2;
    WordIs();
    Pow2Add(m, k);
    Pow2Add(m + k, 32 - (m + k));
    Pow2Add(m, 32 - (m + k));
    Pow2Add(k, 32 - k);
  }

  /** Shifting k bits in keeps the pending bits, though those above the word's top are lost. */
  lemma PushKeeps(value: nat, pending: seq<bool>, x: nat, k: nat)
    requires Carries(value, pending) && |pending| + k <= 32 && x < Pow2(k)
    ensures Carries(Shl(value, k) + x, pending + BitsOf(x, k))
  {
    hide BitsOf, ValueOf, Pow2;
    var m := |pending|;
    Powers(m, k);
    Pushed(value, Pow2(m), Pow2(k), Pow2(32 - (m + k)), x);
    ValueConcat(pending, BitsOf(x, k));
    ValueOfBits(x, k);
  }

  lemma TakenParts(value: nat, p: nat, d: nat, a: nat, b: nat, q: nat)
    requires d > 0 && value == q * (p * d) + (a * d + b) && b < d
    ensures value / d == q * p + a && value % d == b
  {
    var t := q * p + a;
    Distribute(t, q, p, a, d);
    QuotientIs(value, d, t, b);
  }

  /** Taking the top of a word whose low p * d are a * d + b. */
  lemma Taken(value: nat, p: nat, d: nat, a: nat, b: nat, shifted: nat)
    requires p > 0 && d > 0 && p * d > 0 && value % (p * d) == a * d + b && a < p && b < d
    requires shifted == value / d
    ensures shifted % p == a && value % d == b
  {
    var m := p * d;
    var q := value / m;
    assert value == q * m + (a * d + b);
    TakenParts(value, p, d, a, b, q);
    QuotientIs(q * p + a, p, q, a);
  }

  /** Reading the first k pending bits. */
  lemma TakeReads(value: nat, pending: seq<bool>, k: nat)
    requires Carries(value, pending) && k <= |pending|
    ensures ShiftRight(value, |pending| - k) % Pow2(k) == ValueOf(pending[..k])
    ensures Carries(value, pending[k..])
  {
    hide ValueOf, Pow2, ShiftRight;
    var a, b := pending[..k], pending[k..];
    assert pending == a + b;
    Pow2Add(k, |b|);
    ValueConcat(a, b);
    ValueBelow(a);
    ValueBelow(b);
    ShiftIsDivision(value, |b|);
    ProductPositive(Pow2(k), Pow2(|b|));
    Taken(value, Pow2(k), Pow2(|b|), ValueOf(a), ValueOf(b), ShiftRight(value, |b|));
  }

  // ----- Letters -----

  function Letter(v: nat): char
    requires v < 32
  {
    ALPHABET[v]
  }

  function Letters(values: seq<nat>): (s: string)
    requires AllBelow(values, 32)
    ensures |s| == |values|
  {
    seq(|values|, i requires 0 <= i < |values| => Letter(values[i]))
  }

  /** ALPHABET.indexOf */
  function Find(c: char, from: nat): (r: Option<nat>)
    ensures r.Some? ==> from <= r.value < 32 && ALPHABET[r.value] == c
    ensures r.None? ==> forall i :: from <= i < 32 ==> ALPHABET[i] != c
    decreases 32 - from
  {
    if from >= 32 then None else if ALPHABET[from] == c then Some(from) else Find(c, from + 1)
  }

  lemma LetterIs(v: nat)
    requires v < 32
    ensures Letter(v) as int == if v < 26 then 65 + v else 50 + v - 26
  {
  }

  lemma FindLetter(v: nat)
    requires v < 32
    ensures Find(Letter(v), 0) == Some(v)
  {
    LetterIs(v);
    var r := Find(Letter(v), 0);
    assert ALPHABET[v] == Letter(v);
    if r.Some? { LetterIs(r.value); }
  }

  // ----- Encoding -----

  /** Zero bits up to a whole letter. */
  function Padded(bits: seq<bool>): seq<bool> {
    bits + Falses((5 - |bits| % 5) % 5)
  }

  function Encode(bytes: seq<byte>): string {
    GroupsBelow(Padded(Flat(bytes, 8)), 5);
    PowersAre();
    Letters(Groups(Padded(Flat(bytes, 8)), 5))
  }

  lemma PowersAre()
    ensures Pow2(5) == 32 && Pow2(8) == 256
  {
    assert Pow2(5) == 32;
  }

  ghost predicate Emitted(bits: seq<bool>, taken: seq<bool>, pending: seq<bool>, values: seq<nat>, w: nat)
    requires w > 0
  {
    bits == taken + pending && |taken| == |values| * w && values == Groups(taken, w)
  }

  lemma EmitKeeps(bits: seq<bool>, taken: seq<bool>, pending: seq<bool>, values: seq<nat>, w: nat)
    requires w > 0 && Emitted(bits, taken, pending, values, w) && |pending| >= w
    ensures Emitted(bits, taken + pending[..w], pending[w..], values + [ValueOf(pending[..w])], w)
  {
    GroupsAppend(taken, |values|, w, pending[..w]);
    assert pending == pending[..w] + pending[w..];
    assert taken + pending == taken + pending[..w] + pending[w..];
  }

  lemma EmitLetter(values: seq<nat>, v: nat)
    requires AllBelow(values, 32) && v < 32
    ensures AllBelow(values + [v], 32) && Letters(values + [v]) == Letters(values) + [Letter(v)]
  {
  }

  method Base32Encode(bytes: seq<byte>) returns (out: string)
    ensures out == Encode(bytes)
  {
    hide Pow2, ValueOf, BitsOf, Flat, Groups, Letter, Shl, ShiftRight, Carries, Emitted, Letters;
    PowersAre();
    var bits: nat, value: nat := 0, 0;
    out := "";
    ghost var taken: seq<bool>, pending: seq<bool>, values: seq<nat> := [], [], [];
    StartsEmpty(5);
    for i := 0 to |bytes|
      invariant bits == |pending| < 5 && Carries(value, pending)
      invariant AllBelow(values, 32) && out == Letters(values)
      invariant Emitted(Flat(bytes[..i], 8), taken, pending, values, 5)
    {
      PushKeeps(value, pending, bytes[i], 8);
      NextByte(bytes, i, taken, pending, values, 5);
      // The low bits of the shifted accumulator are zero, so `|` adds.
      value := Shl(value, 8) + bytes[i];
      bits := bits + 8;
      pending := pending + BitsOf(bytes[i], 8);
      while bits >= 5
        invariant bits == |pending| && Carries(value, pending)
        invariant AllBelow(values, 32) && out == Letters(values)
        invariant Emitted(Flat(bytes[..i + 1], 8), taken, pending, values, 5)
      {
        TakeReads(value, pending, 5);
        EmitKeeps(Flat(bytes[..i + 1], 8), taken, pending, values, 5);
        EmitLetter(values, ShiftRight(value, bits - 5) % 32);
        out := out + [Letter(ShiftRight(value, bits - 5) % 32)];
        bits := bits - 5;
        taken, values, pending := taken + pending[..5], values + [ValueOf(pending[..5])], pending[5..];
      }
    }
    assert bytes[..|bytes|] == bytes;
    if bits > 0 {
      LastLetter(value, pending);
      EmitPadded(Flat(bytes, 8), taken, pending, values);
      EmitLetter(values, Shl(value, 5 - bits) % 32);
      out := out + [Letter(Shl(value, 5 - bits) % 32)];
      values := values + [ValueOf(pending + Falses(5 - |pending|))];
    } else {
      AllEmitted(Flat(bytes, 8), taken, pending, values);
    }
    EncodeIs(bytes, values);
  }

  lemma StartsEmpty(w: nat)
    requires w > 0
    ensures Carries(0, []) && Emitted(Flat([], 8), [], [], [], w) && Emitted(Flat([], 5), [], [], [], w)
    ensures Letters([]) == ""
  {
  }

  lemma NextByte(bytes: seq<byte>, i: nat, taken: seq<bool>, pending: seq<bool>, values: seq<nat>, w: nat)
    requires w > 0 && i < |bytes| && Emitted(Flat(bytes[..i], 8), taken, pending, values, w)
    ensures Emitted(Flat(bytes[..i + 1], 8), taken, pending + BitsOf(bytes[i], 8), values, w)
  {
    FlatAppend(bytes[..i], bytes[i], 8);
    assert bytes[..i + 1] == bytes[..i] + [bytes[i]];
    assert taken + pending + BitsOf(bytes[i], 8) == taken + (pending + BitsOf(bytes[i], 8));
  }

  /** The bits left over, with zeros after them. */
  lemma LastLetter(value: nat, pending: seq<bool>)
    requires Carries(value, pending) && 0 < |pending| < 5
    ensures Shl(value, 5 - |pending|) % 32 == ValueOf(pending + Falses(5 - |pending|)) < 32
  {
    hide Pow2, BitsOf, ValueOf;
    var k := 5 - |pending|;
    PowersAre();
    BitsOfZero(k);
    PushKeeps(value, pending, 0, k);
    CarriesValue(Shl(value, k) + 0, pending + Falses(k));
    ValueBelow(pending + Falses(k));
  }

  lemma CarriesValue(value: nat, pending: seq<bool>)
    requires Carries(value, pending)
    ensures value % Pow2(|pending|) == ValueOf(pending)
  {
  }

  lemma PaddedIs(bits: seq<bool>, count: nat, left: nat)
    requires left < 5 && |bits| == 5 * count + left
    ensures Padded(bits) == bits + Falses(if left == 0 then 0 else 5 - left)
  {
    hide Falses;
    assert |bits| % 5 == left;
  }

  lemma EmitPadded(bits: seq<bool>, taken: seq<bool>, pending: seq<bool>, values: seq<nat>)
    requires Emitted(bits, taken, pending, values, 5) && 0 < |pending| < 5
    ensures Groups(Padded(bits), 5) == values + [ValueOf(pending + Falses(5 - |pending|))]
  {
    hide Groups, ValueOf, Falses, Padded;
    var zeros := Falses(5 - |pending|);
    PaddedIs(bits, |values|, |pending|);
    assert taken + pending + zeros == taken + (pending + zeros);
    FalsesLength(5 - |pending|);
    GroupsAppend(taken, |values|, 5, pending + zeros);
  }

  lemma FalsesLength(n: nat)
    ensures |Falses(n)| == n
  {
  }

  lemma AllEmitted(bits: seq<bool>, taken: seq<bool>, pending: seq<bool>, values: seq<nat>)
    requires Emitted(bits, taken, pending, values, 5) && |pending| == 0
    ensures Groups(Padded(bits), 5) == values
  {
    hide Groups, Padded;
    PaddedIs(bits, |values|, 0);
    FalsesLength(0);
    assert bits + Falses(0) == taken;
  }

  lemma EncodeIs(bytes: seq<byte>, values: seq<nat>)
    requires Groups(Padded(Flat(bytes, 8)), 5) == values && AllBelow(values, 32)
    ensures Encode(bytes) == Letters(values)
  {
  }

  // ----- Decoding -----

  /** What a person retypes is not told apart: whitespace and then trailing `=` go, and letters are upper-cased. */
  predicate IsSpace(c: char) {
    var n := c as int;
    n in {9, 10, 11, 12, 13, 32, 0xA0, 0x1680, 0x2028, 0x2029, 0x202F, 0x205F, 0x3000, 0xFEFF} || 0x2000 <= n <= 0x200A
  }

  function Spaceless(text: string): (r: string)
    ensures |r| <= |text|
  {
    if |text| == 0 then ""
    else if IsSpace(text[0]) then Spaceless(text[1..])
    else [text[0]] + Spaceless(text[1..])
  }

  function Unpadded(text: string): string {
    if |text| > 0 && text[|text| - 1] == '=' then Unpadded(text[..|text| - 1]) else text
  }

  function Upper(upper: char -> string, text: string): string {
    if |text| == 0 then "" else upper(text[0]) + Upper(upper, text[1..])
  }

  /** Upper-casing outside ASCII is a parameter. */
  function AsciiUpper(c: char): char
    requires c as int < 128
  {
    if 'a' <= c <= 'z' then (c as int - 32) as char else c
  }

  ghost predicate UppersAscii(upper: char -> string) {
    forall c: char :: c as int < 128 ==> upper(c) == [AsciiUpper(c)]
  }

  function Clean(upper: char -> string, text: string): string {
    Upper(upper, Unpadded(Spaceless(text)))
  }

  /** The letters' five bits each, when all are letters. */
  function Indices(clean: string): (r: Option<seq<nat>>)
    ensures r.Some? ==> |r.value| == |clean| && AllBelow(r.value, 32)
  {
    if |clean| == 0 then Some([]) else
    var rest := Indices(clean[..|clean| - 1]);
    var last := Find(clean[|clean| - 1], 0);
    if rest.Some? && last.Some? then Some(rest.value + [last.value]) else None
  }

  function DecodeClean(clean: string): (r: Option<seq<byte>>) {
    var v := Indices(clean);
    if v.None? then None else
    GroupsBelow(Flat(v.value, 5), 8);
    PowersAre();
    Some(AsBytes(Groups(Flat(v.value, 5), 8)))
  }

  function AsBytes(values: seq<nat>): seq<byte>
    requires AllBelow(values, 256)
  {
    values
  }

  function Decode(upper: char -> string, text: string): Option<seq<byte>> {
    DecodeClean(Clean(upper, text))
  }

  /** After i letters: what was put out, what was taken for it, and what the accumulator still holds. */
  ghost predicate Reading(clean: string, i: nat, value: nat, taken: seq<bool>, pending: seq<bool>, out: seq<byte>) {
    && i <= |clean| && Indices(clean[..i]).Some? && Carries(value, pending)
    && Emitted(Flat(Indices(clean[..i]).value, 5), taken, pending, out, 8)
  }

  lemma ReadingMeans(clean: string, i: nat, value: nat, taken: seq<bool>, pending: seq<bool>, out: seq<byte>)
    requires Reading(clean, i, value, taken, pending, out)
    ensures i <= |clean| && Indices(clean[..i]).Some? && Carries(value, pending)
    ensures Emitted(Flat(Indices(clean[..i]).value, 5), taken, pending, out, 8)
  {
  }

  lemma ReadsOn(clean: string, i: nat, index: nat, value: nat, taken: seq<bool>, pending: seq<bool>, out: seq<byte>)
    requires i < |clean| && Indices(clean[..i]).Some?
    requires Indices(clean[..i + 1]) == Some(Indices(clean[..i]).value + [index])
    requires Carries(value, pending)
    requires Emitted(Flat(Indices(clean[..i]).value + [index], 5), taken, pending, out, 8)
    ensures Reading(clean, i + 1, value, taken, pending, out)
  {
    hide Indices, Carries, Emitted, Flat;
  }

  lemma ReadsLetter(clean: string, i: nat, value: nat, taken: seq<bool>, pending: seq<bool>, out: seq<byte>)
    requires i < |clean| && Reading(clean, i, value, taken, pending, out) && |pending| < 8
    ensures Find(clean[i], 0).None? ==> Indices(clean).None?
    ensures Find(clean[i], 0).Some? ==>
              var index := Find(clean[i], 0).value;
              && Reading(clean, i + 1, Shl(value, 5) + index, taken, pending + BitsOf(index, 5), out)
  {
    hide *;
    ReadingMeans(clean, i, value, taken, pending, out);
    IndicesNext(clean, i);
    if Find(clean[i], 0).None? {
      IndicesNone(clean, i);
    } else {
      var index := Find(clean[i], 0).value;
      PowersAre();
      PushKeeps(value, pending, index, 5);
      NextLetter(Indices(clean[..i]).value, index, taken, pending, out);
      ReadsOn(clean, i, index, Shl(value, 5) + index, taken, pending + BitsOf(index, 5), out);
    }
  }

  lemma TakesByte(clean: string, i: nat, value: nat, taken: seq<bool>, pending: seq<bool>, out: seq<byte>)
    requires Reading(clean, i, value, taken, pending, out) && |pending| >= 8
    ensures var b := ShiftRight(value, |pending| - 8) % 256;
            Reading(clean, i, value, taken + pending[..8], pending[8..], out + [b])
  {
    hide BitsOf, Flat, Find, Shl, ShiftRight, Carries, Emitted, Pow2, ValueOf;
    PowersAre();
    TakeReads(value, pending, 8);
    EmitKeeps(Flat(Indices(clean[..i]).value, 5), taken, pending, out, 8);
  }

  lemma AllRead(clean: string, value: nat, taken: seq<bool>, pending: seq<bool>, out: seq<byte>)
    requires Reading(clean, |clean|, value, taken, pending, out) && |pending| < 8
    ensures DecodeClean(clean) == Some(out)
  {
    hide Carries, Emitted, Flat, Groups;
    assert clean[..|clean|] == clean;
    DroppedTail(Flat(Indices(clean).value, 5), taken, pending, out);
  }

  lemma StartsReading(clean: string)
    ensures Reading(clean, 0, 0, [], [], [])
  {
    StartsEmpty(8);
    assert Indices(clean[..0]) == Some([]);
  }

  lemma DecodeIs(upper: char -> string, text: string)
    ensures Decode(upper, text) == DecodeClean(Clean(upper, text))
    ensures Indices(Clean(upper, text)).None? ==> Decode(upper, text).None?
  {
    hide Clean, Indices;
  }

  /** None is the error on a character outside the alphabet. */
  method Base32Decode(upper: char -> string, text: string) returns (r: Option<seq<byte>>)
    ensures r == Decode(upper, text)
  {
    hide *;
    var clean := Clean(upper, text);
    DecodeIs(upper, text);
    var bits: nat, value: nat := 0, 0;
    var out: seq<byte> := [];
    ghost var taken: seq<bool>, pending: seq<bool> := [], [];
    StartsReading(clean);
    for i := 0 to |clean|
      invariant bits == |pending| < 8 && Reading(clean, i, value, taken, pending, out)
    {
      var index := Find(clean[i], 0);
      ReadsLetter(clean, i, value, taken, pending, out);
      if index.None? { return None; }
      // The low bits of the shifted accumulator are zero, so `|` adds.
      value := Shl(value, 5) + index.value;
      bits := bits + 5;
      pending := pending + BitsOf(index.value, 5);
      if bits >= 8 {
        TakesByte(clean, i + 1, value, taken, pending, out);
        out := out + [ShiftRight(value, bits - 8) % 256];
        bits := bits - 8;
        taken, pending := taken + pending[..8], pending[8..];
      }
    }
    AllRead(clean, value, taken, pending, out);
    return Some(out);
  }

  lemma IndicesNext(clean: string, i: nat)
    requires i < |clean| && Indices(clean[..i]).Some?
    ensures Indices(clean[..i + 1])
      == if Find(clean[i], 0).None? then None else Some(Indices(clean[..i]).value + [Find(clean[i], 0).value])
  {
    assert clean[..i + 1][..i] == clean[..i];
  }

  lemma {:induction false} IndicesNone(clean: string, i: nat)
    requires i < |clean| && Indices(clean[..i + 1]).None?
    ensures Indices(clean).None?
    decreases |clean|
  {
    if i + 1 < |clean| {
      var init := clean[..|clean| - 1];
      assert init[..i + 1] == clean[..i + 1];
      IndicesNone(init, i);
    } else {
      assert clean[..i + 1] == clean;
    }
  }

  lemma NextLetter(indices: seq<nat>, index: nat, taken: seq<bool>, pending: seq<bool>, out: seq<nat>)
    requires Emitted(Flat(indices, 5), taken, pending, out, 8)
    ensures Emitted(Flat(indices + [index], 5), taken, pending + BitsOf(index, 5), out, 8)
  {
    FlatAppend(indices, index, 5);
    assert taken + pending + BitsOf(index, 5) == taken + (pending + BitsOf(index, 5));
  }

  lemma DroppedTail(bits: seq<bool>, taken: seq<bool>, pending: seq<bool>, values: seq<nat>)
    requires Emitted(bits, taken, pending, values, 8) && |pending| < 8
    ensures Groups(bits, 8) == values
  {
    hide Groups;
    FlatOfGroups(taken, 8, |values|);
    assert AllBelow(values, Pow2(8)) by { GroupsBelow(taken, 8); }
    GroupsOfFlat(values, 8, pending);
  }

  // ----- Decoding what was encoded -----

  lemma {:induction false} IndicesOfLetters(values: seq<nat>)
    requires AllBelow(values, 32)
    ensures Indices(Letters(values)) == Some(values)
  {
    hide Find, Letter;
    if |values| > 0 {
      var init, last := values[..|values| - 1], values[|values| - 1];
      IndicesOfLetters(init);
      assert Letters(values)[..|values| - 1] == Letters(init);
      FindLetter(last);
      assert values == init + [last];
    }
  }

  /** Bits after the last letter are padding, and too few to be a byte. */
  lemma PaddedSplits(bits: seq<bool>) returns (z: nat, c: nat)
    ensures z < 5 && Padded(bits) == bits + Falses(z) && |bits| + z == c * 5
  {
    c, z := |bits| / 5, |bits| % 5;
    PaddedIs(bits, c, z);
    if z > 0 { c, z := c + 1, 5 - z; }
  }

  lemma EncodeFlat(bytes: seq<byte>)
    ensures Indices(Encode(bytes)).Some?
    ensures Flat(Indices(Encode(bytes)).value, 5) == Padded(Flat(bytes, 8))
  {
    hide Flat, Groups, Indices, Letters, Padded, Pow2, Falses;
    var padded := Padded(Flat(bytes, 8));
    var z, c := PaddedSplits(Flat(bytes, 8));
    FalsesLength(z);
    FlatOfGroups(padded, 5, c);
    GroupsBelow(padded, 5);
    PowersAre();
    IndicesOfLetters(Groups(padded, 5));
  }

  /** Decoding undoes encoding for every byte sequence. */
  lemma DecodeEncode(bytes: seq<byte>)
    ensures DecodeClean(Encode(bytes)) == Some(bytes)
  {
    hide Flat, Groups, Indices, Letters, Padded, Pow2, Encode, Falses;
    EncodeFlat(bytes);
    var z, c := PaddedSplits(Flat(bytes, 8));
    FalsesLength(z);
    PowersAre();
    GroupsOfFlat(bytes, 8, Falses(z));
  }

  /** Encoding undoes decoding exactly when what the letters carry beyond whole bytes is fewer than five
      bits, all zero; other texts are decoded all the same. */
  lemma EncodeDecode(clean: string)
    requires Indices(clean).Some?
    ensures var bits := Flat(Indices(clean).value, 5);
            var rest := bits[8 * (|bits| / 8)..];
            Encode(DecodeClean(clean).value) == clean <==> |rest| < 5 && rest == Falses(|rest|)
  {
    hide Flat, Groups, Indices, Letters, Padded, Pow2, Encode, Falses;
    var bits := Flat(Indices(clean).value, 5);
    var c := |bits| / 8;
    var taken, rest := bits[..8 * c], bits[8 * c..];
    assert bits == taken + rest;
    var bytes := DecodeClean(clean).value;
    FlatOfGroups(taken, 8, c);
    GroupsBelow(taken, 8);
    GroupsOfFlat(Groups(taken, 8), 8, rest);
    assert Flat(bytes, 8) == taken;
    EncodeFlat(bytes);
    LettersOfIndices(clean);
    LettersOfIndices(Encode(bytes));
    SameFlat(Indices(clean).value, Indices(Encode(bytes)).value);
    PaddedIsAll(taken, rest, |clean|);
  }

  lemma {:induction false} LettersOfIndices(clean: string)
    requires Indices(clean).Some?
    ensures Letters(Indices(clean).value) == clean
  {
    hide Find;
    if |clean| > 0 {
      var init := clean[..|clean| - 1];
      LettersOfIndices(init);
      EmitLetter(Indices(init).value, Find(clean[|clean| - 1], 0).value);
      assert clean == init + [clean[|clean| - 1]];
    }
  }

  lemma SameFlat(a: seq<nat>, b: seq<nat>)
    requires AllBelow(a, 32) && AllBelow(b, 32)
    ensures Flat(a, 5) == Flat(b, 5) <==> a == b
  {
    hide Flat, Groups;
    PowersAre();
    GroupsOfFlat(a, 5, []);
    GroupsOfFlat(b, 5, []);
    assert Flat(a, 5) + [] == Flat(a, 5) && Flat(b, 5) + [] == Flat(b, 5);
  }

  lemma PaddedIsAll(taken: seq<bool>, rest: seq<bool>, n: nat)
    requires |taken| + |rest| == 5 * n
    ensures Padded(taken) == taken + rest <==> |rest| < 5 && rest == Falses(|rest|)
  {
    hide Padded, Falses;
    var z, c := PaddedSplits(taken);
    FalsesLength(z);
    if Padded(taken) == taken + rest {
      assert |rest| == z;
      assert rest == (taken + rest)[|taken|..] == (taken + Falses(z))[|taken|..] == Falses(z);
    }
    if |rest| < 5 { SameRemainder(n, c, |rest|, z); }
  }

  lemma SameRemainder(n: int, c: int, a: int, b: int)
    requires 0 <= a < 5 && 0 <= b < 5 && 5 * n - a == c * 5 - b
    ensures a == b
  {
  }

  // ----- Retyped texts -----

  lemma {:induction false} SpacelessConcat(a: string, b: string)
    ensures Spaceless(a + b) == Spaceless(a) + Spaceless(b)
  {
    hide IsSpace;
    if |a| == 0 {
      assert a + b == b;
    } else {
      assert (a + b)[1..] == a[1..] + b;
      SpacelessConcat(a[1..], b);
    }
  }

  lemma {:induction false} UnpaddedAfter(a: string, c: char, b: string)
    requires c != '='
    ensures Unpadded(a + [c] + b) == a + [c] + Unpadded(b)
  {
    var all := a + [c] + b;
    if |b| == 0 {
      assert all == a + [c];
    } else if b[|b| - 1] == '=' {
      assert all[..|all| - 1] == a + [c] + b[..|b| - 1];
      UnpaddedAfter(a, c, b[..|b| - 1]);
    }
  }

  lemma {:induction false} UpperConcat(upper: char -> string, a: string, b: string)
    ensures Upper(upper, a + b) == Upper(upper, a) + Upper(upper, b)
  {
    if |a| == 0 {
      assert a + b == b;
    } else {
      assert (a + b)[1..] == a[1..] + b;
      UpperConcat(upper, a[1..], b);
    }
  }

  lemma OneSpaceless(c: char)
    ensures Spaceless([c]) == if IsSpace(c) then "" else [c]
  {
    assert [c][1..] == "";
  }

  /** Whitespace anywhere makes no difference, in any text. */
  lemma SpaceInserted(upper: char -> string, a: string, c: char, b: string)
    requires IsSpace(c)
    ensures Decode(upper, a + [c] + b) == Decode(upper, a + b)
  {
    hide Spaceless, DecodeClean, IsSpace, Upper, Unpadded;
    SpacelessConcat(a + [c], b);
    SpacelessConcat(a, [c]);
    SpacelessConcat(a, b);
    OneSpaceless(c);
    assert Spaceless(a) + "" == Spaceless(a);
  }

  /** Nor does padding after it. */
  lemma PaddingAppended(upper: char -> string, a: string)
    ensures Decode(upper, a + "=") == Decode(upper, a)
  {
    hide Spaceless, DecodeClean, Upper;
    SpacelessConcat(a, "=");
    OneSpaceless('=');
    assert (Spaceless(a) + "=")[..|Spaceless(a)|] == Spaceless(a);
  }

  function Lower(c: char): char {
    if 'A' <= c <= 'Z' then (c as int + 32) as char else c
  }

  /** Nor does the case of an ASCII letter. */
  lemma LowerCased(upper: char -> string, a: string, c: char, b: string)
    requires UppersAscii(upper) && 'A' <= c <= 'Z'
    ensures Decode(upper, a + [Lower(c)] + b) == Decode(upper, a + [c] + b)
  {
    hide Spaceless, DecodeClean, Upper, Unpadded;
    AroundLetter(upper, a, c, b);
    AroundLetter(upper, a, Lower(c), b);
    assert upper(c) == [c] == upper(Lower(c));
  }

  lemma AroundLetter(upper: char -> string, a: string, c: char, b: string)
    requires !IsSpace(c) && c != '='
    ensures Clean(upper, a + [c] + b) == Upper(upper, Spaceless(a)) + upper(c) + Upper(upper, Unpadded(Spaceless(b)))
  {
    hide Spaceless, Unpadded, IsSpace;
    SpacelessConcat(a + [c], b);
    SpacelessConcat(a, [c]);
    OneSpaceless(c);
    UnpaddedAfter(Spaceless(a), c, Spaceless(b));
    UpperConcat(upper, Spaceless(a) + [c], Unpadded(Spaceless(b)));
    UpperConcat(upper, Spaceless(a), [c]);
    assert Upper(upper, [c]) == upper(c) + Upper(upper, [c][1..]) == upper(c);
  }

  /** One slip of a person copying a secret. */
  datatype Edit = Space(at: nat, c: char) | Pad | LowerAt(at: nat)

  function Edited(text: string, e: Edit): string {
    match e
    case Space(at, c) => if at <= |text| && IsSpace(c) then text[..at] + [c] + text[at..] else text
    case Pad => text + "="
    case LowerAt(at) => if at < |text| then text[..at] + [Lower(text[at])] + text[at + 1..] else text
  }

  function Retyped(text: string, edits: seq<Edit>): string
    decreases |edits|
  {
    if |edits| == 0 then text else Retyped(Edited(text, edits[0]), edits[1..])
  }

  lemma {:induction false} RetypedSame(upper: char -> string, text: string, edits: seq<Edit>)
    requires UppersAscii(upper)
    ensures Decode(upper, Retyped(text, edits)) == Decode(upper, text)
    decreases |edits|
  {
    hide Decode, UppersAscii, IsSpace;
    if |edits| > 0 {
      match edits[0] {
        case Space(at, c) =>
          if at <= |text| && IsSpace(c) {
            SpaceInserted(upper, text[..at], c, text[at..]);
            assert text[..at] + text[at..] == text;
          }
        case Pad => PaddingAppended(upper, text);
        case LowerAt(at) =>
          if at < |text| {
            assert text[..at] + [text[at]] + text[at + 1..] == text;
            if 'A' <= text[at] <= 'Z' { LowerCased(upper, text[..at], text[at], text[at + 1..]); }
          }
      }
      RetypedSame(upper, Edited(text, edits[0]), edits[1..]);
    }
  }

  predicate IsLetter(c: char) {
    'A' <= c <= 'Z' || '2' <= c <= '7'
  }

  lemma {:induction false} LettersClean(upper: char -> string, text: string)
    requires UppersAscii(upper) && forall i :: 0 <= i < |text| ==> IsLetter(text[i])
    ensures Spaceless(text) == text && Unpadded(text) == text && Upper(upper, text) == text
  {
    if |text| > 0 {
      assert IsLetter(text[0]) && IsLetter(text[|text| - 1]);
      LettersClean(upper, text[1..]);
      assert upper(text[0]) == [text[0]];
      assert text == [text[0]] + text[1..];
    }
  }

  /** Any byte sequence survives being encoded, retyped with any number of slips in any order, and decoded. */
  lemma DecodeRetyped(upper: char -> string, bytes: seq<byte>, edits: seq<Edit>)
    requires UppersAscii(upper)
    ensures Decode(upper, Retyped(Encode(bytes), edits)) == Some(bytes)
  {
    hide DecodeClean, UppersAscii, Retyped, Encode;
    RetypedSame(upper, Encode(bytes), edits);
    EncodedLetters(bytes);
    LettersClean(upper, Encode(bytes));
    DecodeEncode(bytes);
  }

  lemma EncodedLetters(bytes: seq<byte>)
    ensures forall i :: 0 <= i < |Encode(bytes)| ==> IsLetter(Encode(bytes)[i])
  {
    hide Flat, Groups, Padded, Pow2, Letter;
    GroupsBelow(Padded(Flat(bytes, 8)), 5);
    PowersAre();
    var values := Groups(Padded(Flat(bytes, 8)), 5);
    forall i | 0 <= i < |values| ensures IsLetter(Letter(values[i])) { LetterIs(values[i]); }
  }

  /** AB decodes to one zero byte, and that byte encodes as AA. */
  lemma LeftoverBits()
    ensures Indices("AB") == Some([0, 1]) && DecodeClean("AB") == Some([0]) && Encode([0]) != "AB"
  {
    hide Encode, Indices;
    IndicesOfAB();
    FlatOfAB();
    EncodeDecode("AB");
    assert Falses(2) == [false, false];
  }

  lemma IndicesOfAB()
    ensures Indices("AB") == Some([0, 1])
  {
    hide Indices;
    IndicesOfLetters([0, 1]);
    assert Letters([0, 1]) == "AB";
  }

  lemma FlatOfAB()
    ensures Flat([0, 1], 5) == Falses(8) + [false, true]
    ensures Groups(Flat([0, 1], 5), 8) == [0]
  {
    var values: seq<nat> := [0, 1];
    assert values[1..] == [1] && |values[1..][1..]| == 0;
    BitsOfZero(5);
    BitsOfZero(4);
    BitsOfZero(8);
    assert BitsOf(1, 5) == Falses(4) + [true];
    assert Flat([1], 5) == BitsOf(1, 5) + [];
    assert Flat(values, 5) == Falses(8) + [false, true];
    var zero: seq<nat> := [0];
    assert |zero[1..]| == 0;
    assert Flat(zero, 8) == Falses(8);
    PowersAre();
    GroupsOfFlat(zero, 8, [false, true]);
  }
}
