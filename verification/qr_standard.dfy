/** What ISO/IEC 18004:2015 fixes for byte mode at error correction level M, as its tables and drawings
    print it. Nothing here is computed the way the encoder computes it, and the encoder uses none of it. */
module QrStandard {

  // ----- Codewords and blocks (table 9) and byte capacities (table 7) -----

  /** Codewords in all, error correction codewords of a block, and then so many blocks of so many data codewords
      and so many of one more. */
  datatype Shares = Shares(total: nat, ecc: nat, short: nat, shortData: nat, long: nat)

  function Table(v: int): Shares
    requires 1 <= v <= 40
  {
    match v
    case 1 => Shares(26, 10, 1, 16, 0)
    case 2 => Shares(44, 16, 1, 28, 0)
    case 3 => Shares(70, 26, 1, 44, 0)
    case 4 => Shares(100, 18, 2, 32, 0)
    case 5 => Shares(134, 24, 2, 43, 0)
    case 6 => Shares(172, 16, 4, 27, 0)
    case 7 => Shares(196, 18, 4, 31, 0)
    case 8 => Shares(242, 22, 2, 38, 2)
    case 9 => Shares(292, 22, 3, 36, 2)
    case 10 => Shares(346, 26, 4, 43, 1)
    case 11 => Shares(404, 30, 1, 50, 4)
    case 12 => Shares(466, 22, 6, 36, 2)
    case 13 => Shares(532, 22, 8, 37, 1)
    case 14 => Shares(581, 24, 4, 40, 5)
    case 15 => Shares(655, 24, 5, 41, 5)
    case 16 => Shares(733, 28, 7, 45, 3)
    case 17 => Shares(815, 28, 10, 46, 1)
    case 18 => Shares(901, 26, 9, 43, 4)
    case 19 => Shares(991, 26, 3, 44, 11)
    case 20 => Shares(1085, 26, 3, 41, 13)
    case 21 => Shares(1156, 26, 17, 42, 0)
    case 22 => Shares(1258, 28, 17, 46, 0)
    case 23 => Shares(1364, 28, 4, 47, 14)
    case 24 => Shares(1474, 28, 6, 45, 14)
    case 25 => Shares(1588, 28, 8, 47, 13)
    case 26 => Shares(1706, 28, 19, 46, 4)
    case 27 => Shares(1828, 28, 22, 45, 3)
    case 28 => Shares(1921, 28, 3, 45, 23)
    case 29 => Shares(2051, 28, 21, 45, 7)
    case 30 => Shares(2185, 28, 19, 47, 10)
    case 31 => Shares(2323, 28, 2, 46, 29)
    case 32 => Shares(2465, 28, 10, 46, 23)
    case 33 => Shares(2611, 28, 14, 46, 21)
    case 34 => Shares(2761, 28, 14, 46, 23)
    case 35 => Shares(2876, 28, 12, 47, 26)
    case 36 => Shares(3034, 28, 6, 47, 34)
    case 37 => Shares(3196, 28, 29, 46, 14)
    case 38 => Shares(3362, 28, 13, 46, 32)
    case 39 => Shares(3532, 28, 40, 47, 7)
    case _ => Shares(3706, 28, 18, 47, 31)
  }

  /** The most bytes a version holds. */
  function ByteCapacity(v: int): nat
    requires 1 <= v <= 40
  {
    match v
    case 1 => 14
    case 2 => 26
    case 3 => 42
    case 4 => 62
    case 5 => 84
    case 6 => 106
    case 7 => 122
    case 8 => 152
    case 9 => 180
    case 10 => 213
    case 11 => 251
    case 12 => 287
    case 13 => 331
    case 14 => 362
    case 15 => 412
    case 16 => 450
    case 17 => 504
    case 18 => 560
    case 19 => 624
    case 20 => 666
    case 21 => 711
    case 22 => 779
    case 23 => 857
    case 24 => 911
    case 25 => 997
    case 26 => 1059
    case 27 => 1125
    case 28 => 1190
    case 29 => 1264
    case 30 => 1370
    case 31 => 1452
    case 32 => 1538
    case 33 => 1628
    case 34 => 1722
    case 35 => 1809
    case 36 => 1911
    case 37 => 1989
    case 38 => 2099
    case 39 => 2213
    case _ => 2331
  }

  /** The width of the character count (table 3). */
  function CountWidth(v: int): nat {
    if v < 10 then 8 else 16
  }

  // ----- Alignment patterns (table E.1) -----

  function AlignmentCentres(v: int): seq<int>
    requires 1 <= v <= 40
  {
    match v
    case 1 => []
    case 2 => [6, 18]
    case 3 => [6, 22]
    case 4 => [6, 26]
    case 5 => [6, 30]
    case 6 => [6, 34]
    case 7 => [6, 22, 38]
    case 8 => [6, 24, 42]
    case 9 => [6, 26, 46]
    case 10 => [6, 28, 50]
    case 11 => [6, 30, 54]
    case 12 => [6, 32, 58]
    case 13 => [6, 34, 62]
    case 14 => [6, 26, 46, 66]
    case 15 => [6, 26, 48, 70]
    case 16 => [6, 26, 50, 74]
    case 17 => [6, 30, 54, 78]
    case 18 => [6, 30, 56, 82]
    case 19 => [6, 30, 58, 86]
    case 20 => [6, 34, 62, 90]
    case 21 => [6, 28, 50, 72, 94]
    case 22 => [6, 26, 50, 74, 98]
    case 23 => [6, 30, 54, 78, 102]
    case 24 => [6, 28, 54, 80, 106]
    case 25 => [6, 32, 58, 84, 110]
    case 26 => [6, 30, 58, 86, 114]
    case 27 => [6, 34, 62, 90, 118]
    case 28 => [6, 26, 50, 74, 98, 122]
    case 29 => [6, 30, 54, 78, 102, 126]
    case 30 => [6, 26, 52, 78, 104, 130]
    case 31 => [6, 30, 56, 82, 108, 134]
    case 32 => [6, 34, 60, 86, 112, 138]
    case 33 => [6, 30, 58, 86, 114, 142]
    case 34 => [6, 34, 62, 90, 118, 146]
    case 35 => [6, 30, 54, 78, 102, 126, 150]
    case 36 => [6, 24, 50, 76, 102, 128, 154]
    case 37 => [6, 28, 54, 80, 106, 132, 158]
    case 38 => [6, 32, 58, 84, 110, 136, 162]
    case 39 => [6, 26, 54, 82, 110, 138, 166]
    case _ => [6, 30, 58, 86, 114, 142, 170]
  }

  // ----- Finder and alignment patterns (sections 6.3.3 and 6.3.6); # is dark -----

  /** The seven rows of a finder. */
  function FinderRow(y: int): string {
    match y
    case 0 => "#######"
    case 1 => "#.....#"
    case 2 => "#.###.#"
    case 3 => "#.###.#"
    case 4 => "#.###.#"
    case 5 => "#.....#"
    case _ => "#######"
  }

  /** The five rows of an alignment pattern. */
  function AlignmentRow(y: int): string {
    match y
    case 0 => "#####"
    case 1 => "#...#"
    case 2 => "#.#.#"
    case 3 => "#...#"
    case _ => "#####"
  }

  // ----- Masks (table 10), twelve rows of six columns that repeat -----

  function Tile(m: int): (rows: seq<string>) {
    match m
    case 0 => [
      "#.#.#.", ".#.#.#", "#.#.#.", ".#.#.#",
      "#.#.#.", ".#.#.#", "#.#.#.", ".#.#.#",
      "#.#.#.", ".#.#.#", "#.#.#.", ".#.#.#"]
    case 1 => [
      "######", "......", "######", "......",
      "######", "......", "######", "......",
      "######", "......", "######", "......"]
    case 2 => [
      "#..#..", "#..#..", "#..#..", "#..#..",
      "#..#..", "#..#..", "#..#..", "#..#..",
      "#..#..", "#..#..", "#..#..", "#..#.."]
    case 3 => [
      "#..#..", "..#..#", ".#..#.", "#..#..",
      "..#..#", ".#..#.", "#..#..", "..#..#",
      ".#..#.", "#..#..", "..#..#", ".#..#."]
    case 4 => [
      "###...", "###...", "...###", "...###",
      "###...", "###...", "...###", "...###",
      "###...", "###...", "...###", "...###"]
    case 5 => [
      "######", "#.....", "#..#..", "#.#.#.",
      "#..#..", "#.....", "######", "#.....",
      "#..#..", "#.#.#.", "#..#..", "#....."]
    case 6 => [
      "######", "###...", "##.##.", "#.#.#.",
      "#.##.#", "#...##", "######", "###...",
      "##.##.", "#.#.#.", "#.##.#", "#...##"]
    case _ => [
      "#.#.#.", "...###", "#...##", ".#.#.#",
      "###...", ".###..", "#.#.#.", "...###",
      "#...##", ".#.#.#", "###...", ".###.."]
  }

  // ----- Format information (table C.1) and version information (table D.1) -----

  function FormatInformation(m: int): bv32 {
    match m
    case 0 => 0x5412
    case 1 => 0x5125
    case 2 => 0x5e7c
    case 3 => 0x5b4b
    case 4 => 0x45f9
    case 5 => 0x40ce
    case 6 => 0x4f97
    case _ => 0x4aa0
  }

  function VersionInformation(v: int): bv32 {
    match v
    case 7 => 0x07c94
    case 8 => 0x085bc
    case 9 => 0x09a99
    case 10 => 0x0a4d3
    case 11 => 0x0bbf6
    case 12 => 0x0c762
    case 13 => 0x0d847
    case 14 => 0x0e60d
    case 15 => 0x0f928
    case 16 => 0x10b78
    case 17 => 0x1145d
    case 18 => 0x12a17
    case 19 => 0x13532
    case 20 => 0x149a6
    case 21 => 0x15683
    case 22 => 0x168c9
    case 23 => 0x177ec
    case 24 => 0x18ec4
    case 25 => 0x191e1
    case 26 => 0x1afab
    case 27 => 0x1b08e
    case 28 => 0x1cc1a
    case 29 => 0x1d33f
    case 30 => 0x1ed75
    case 31 => 0x1f250
    case 32 => 0x209d5
    case 33 => 0x216f0
    case 34 => 0x228ba
    case 35 => 0x2379f
    case 36 => 0x24b0b
    case 37 => 0x2542e
    case 38 => 0x26a64
    case 39 => 0x27541
    case _ => 0x28c69
  }

  /** Bit i of such a word, 0 the least significant. */
  function Bit(i: nat): bv32
    requires i < 18
  {
    match i
    case 0 => 0x1 case 1 => 0x2 case 2 => 0x4 case 3 => 0x8 case 4 => 0x10 case 5 => 0x20
    case 6 => 0x40 case 7 => 0x80 case 8 => 0x100 case 9 => 0x200 case 10 => 0x400 case 11 => 0x800
    case 12 => 0x1000 case 13 => 0x2000 case 14 => 0x4000 case 15 => 0x8000 case 16 => 0x10000 case _ => 0x20000
  }

  predicate BitSet(w: bv32, i: nat)
    requires i < 18
  {
    w & Bit(i) != 0
  }

  /** Where the format information goes (section 7.9), most significant bit first, in a symbol of side n: along row 8
      and up column 8 at the upper left, and up column 8 at the lower left and along row 8 at the upper right. */
  function FirstStrip(): seq<(int, int)> {
    [(0, 8), (1, 8), (2, 8), (3, 8), (4, 8), (5, 8), (7, 8), (8, 8),
     (8, 7), (8, 5), (8, 4), (8, 3), (8, 2), (8, 1), (8, 0)]
  }

  function SecondStrip(n: int): seq<(int, int)> {
    [(8, n - 1), (8, n - 2), (8, n - 3), (8, n - 4), (8, n - 5), (8, n - 6), (8, n - 7),
     (n - 8, 8), (n - 7, 8), (n - 6, 8), (n - 5, 8), (n - 4, 8), (n - 3, 8), (n - 2, 8), (n - 1, 8)]
  }

  /** Where the version information goes at the upper right (section 7.10), most significant bit first: six rows of
      three from the bottom right. At the lower left columns and rows change places. */
  function VersionBlock(n: int): seq<(int, int)> {
    [(n - 9, 5), (n - 10, 5), (n - 11, 5), (n - 9, 4), (n - 10, 4), (n - 11, 4),
     (n - 9, 3), (n - 10, 3), (n - 11, 3), (n - 9, 2), (n - 10, 2), (n - 11, 2),
     (n - 9, 1), (n - 10, 1), (n - 11, 1), (n - 9, 0), (n - 10, 0), (n - 11, 0)]
  }

  // ----- The walk (section 7.7.3) -----

  /** Where the walk is: in the right or the left of two columns, on the way up or down. */
  datatype Cursor = Cursor(x: int, y: int, right: bool, up: bool)

  /** From the right column to the left; from the left back to the right one row on; and at the end of the two columns
      to the next two, over column 6, and the other way. */
  function Next(n: int, c: Cursor): Cursor {
    if c.right then c.(x := c.x - 1, right := false)
    else if c.up && c.y > 0 then Cursor(c.x + 1, c.y - 1, true, true)
    else if !c.up && c.y < n - 1 then Cursor(c.x + 1, c.y + 1, true, false)
    else Cursor(if c.x == 7 then 5 else c.x - 1, c.y, true, !c.up)
  }

  /** The walk begins in the lower right corner, upwards. */
  function CursorAt(n: int, k: nat): Cursor {
    if k == 0 then Cursor(n - 1, n - 1, true, true) else Next(n, CursorAt(n, k - 1))
  }
}
