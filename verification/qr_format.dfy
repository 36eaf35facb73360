/** Writing the format strip in place. */
module QrFormat {
  import opened QrLayout
  import opened QrMask
  import opened QrWalk
  import QrPattern

  method FormatBits(m: nat) returns (bits: bv32)
    requires m < 8
    ensures bits == FormatWord(m)
  {
    hide FormatTurn, Scrambled, FormatData;
    var data := FormatData(m);
    var rem := data;
    for i := 0 to 10
      invariant rem == FormatCheck(data, i)
    {
      rem := FormatTurn(rem);
    }
    bits := Scrambled(data, rem);
  }

  method PlaceFirst(modules: array2<bool>, m: nat, bits: bv32, first: seq<(int, int)>)
    requires modules.Length0 == modules.Length1 >= 21 && m < 8 && bits == FormatWord(m)
    requires first == seq(15, i requires 0 <= i < 15 => FirstFormat(i))
    modifies modules
    ensures forall y, x :: 0 <= y < modules.Length0 && 0 <= x < modules.Length0 ==>
      modules[y, x] == if 0 <= FirstIndex(x, y) then FormatBit(m, FirstIndex(x, y)) else old(modules[y, x])
  {
    hide WordBit, FormatWord, FirstFormat, SecondFormat, FirstIndex, SecondIndex;
    var size := modules.Length0;
    for k := 0 to 15
      invariant forall y, x :: 0 <= y < size && 0 <= x < size ==>
        modules[y, x] == if 0 <= FirstIndex(x, y) < k then FormatBit(m, FirstIndex(x, y)) else old(modules[y, x])
    {
      StripPlaces(size, k);
      var (x, y) := first[k];
      modules[y, x] := WordBit(bits, k);
    }
  }

  method PlaceSecond(modules: array2<bool>, m: nat, bits: bv32, second: seq<(int, int)>)
    requires modules.Length0 == modules.Length1 >= 21 && m < 8 && bits == FormatWord(m)
    requires second == seq(15, i requires 0 <= i < 15 => SecondFormat(modules.Length0, i))
    modifies modules
    ensures forall y, x :: 0 <= y < modules.Length0 && 0 <= x < modules.Length0 ==>
      modules[y, x] == var k := SecondIndex(modules.Length0, x, y); if 0 <= k then FormatBit(m, k) else old(modules[y, x])
  {
    hide WordBit, FormatWord, FirstFormat, SecondFormat, FirstIndex, SecondIndex;
    var size := modules.Length0;
    for k := 0 to 15
      invariant forall y, x :: 0 <= y < size && 0 <= x < size ==>
        modules[y, x] == var i := SecondIndex(size, x, y); if 0 <= i < k then FormatBit(m, i) else old(modules[y, x])
    {
      StripPlaces(size, k);
      var (x, y) := second[k];
      modules[y, x] := WordBit(bits, k);
    }
  }

  method PlaceFormat(modules: array2<bool>, m: nat)
    requires modules.Length0 == modules.Length1 >= 21 && m < 8
    modifies modules
    ensures FormattedFrom(GridOf(modules), old(GridOf(modules)), modules.Length0, m)
  {
    hide WordBit, FormatWord, FirstFormat, SecondFormat, FirstIndex, SecondIndex;
    var bits := FormatBits(m);
    var first, second := QrPattern.FormatPositions(modules.Length0);
    PlaceFirst(modules, m, bits, first);
    PlaceSecond(modules, m, bits, second);
  }
}
