/** What some grids and lines score, in closed form. */
module QrScores {
  import opened QrWalk
  import opened QrPenalty

  function Plain(c: bool, n: nat): (g: Grid)
    ensures IsGrid(g, n) && forall y :: 0 <= y < n ==> g[y] == Repeat(c, n)
  {
    seq(n, _ => Repeat(c, n))
  }

  // ----- Lines of one colour -----

  lemma LightRuns(n: nat)
    ensures Runs(Repeat(false, n)) == [n]
  {
    RunsAfterLight(n, []);
    assert Repeat(false, n) + [] == Repeat(false, n);
    assert Runs([]) == [0];
  }

  lemma {:induction false} DarkRuns(n: nat)
    requires n > 0
    ensures Runs(Repeat(true, n)) == [0, n]
  {
    RepeatMore(true, n - 1);
    RunsStep(Repeat(true, n - 1), true);
    if n > 1 { DarkRuns(n - 1); } else { assert Repeat(true, 0) == []; }
  }

  lemma TwoScores(a: nat, b: nat)
    ensures RunScores([a]) == RunScore(a) && RunScores([a, b]) == RunScore(a) + RunScore(b)
  {
    assert [a][..0] == [] && [a, b][..1] == [a];
  }

  lemma NoFinders(runs: seq<nat>, m: nat)
    requires m <= |runs| <= 3
    ensures Finders(runs, m) == 0
  {
  }

  lemma LightLine(n: nat)
    requires n >= 5
    ensures LineScore(Repeat(false, n)) == n - 2
  {
    LightRuns(n);
    LightRuns(n + n + n);
    assert Quiet(Repeat(false, n)) == Repeat(false, n + n + n);
    TwoScores(n, 0);
    NoFinders([n + n + n], 1);
  }

  lemma DarkLine(n: nat)
    requires n >= 5
    ensures LineScore(Repeat(true, n)) == n - 2
  {
    DarkRuns(n);
    TwoScores(0, n);
    hide Runs, Finders, RunScores;
    RunsAfterLight(n, Repeat(true, n));
    RunsBeforeLight(Repeat(false, n) + Repeat(true, n), n);
    NoFinders([n, n, n], 3);
    assert Bumped([0, n], n) == [n, n] && Lengthened([n, n], n) == [n, n, n];
    assert Quiet(Repeat(true, n)) == Repeat(false, n) + Repeat(true, n) + Repeat(false, n);
  }

  // ----- Grids of one colour -----

  lemma {:induction false} PlainAxis(c: bool, n: nat, rows: bool, a: nat)
    requires n >= 5 && a <= n
    ensures AxisScore(Plain(c, n), n, rows, a) == a * (n - 2)
  {
    hide LineScore, Repeat;
    if a > 0 {
      PlainAxis(c, n, rows, a - 1);
      PlainLine(c, n, rows, a - 1);
      if c { DarkLine(n); } else { LightLine(n); }
      OneMore(a, n - 2);
    }
  }

  lemma PlainLine(c: bool, n: nat, rows: bool, a: nat)
    requires a < n
    ensures (if rows then Row(Plain(c, n), n, a) else ColumnOf(Plain(c, n), n, a)) == Repeat(c, n)
  {
  }

  lemma OneMore(a: nat, b: nat)
    requires a > 0
    ensures (a - 1) * b + b == a * b
  {
  }

  lemma {:induction false} PlainRow(c: bool, n: nat, y: nat, x: nat)
    requires y + 1 < n && x < n
    ensures BlocksInRow(Plain(c, n), n, y, x) == x
  {
    if x > 0 {
      PlainRow(c, n, y, x - 1);
      assert BlockAt(Plain(c, n), n, x - 1, y);
    }
  }

  lemma {:induction false} PlainBlocks(c: bool, n: nat, y: nat)
    requires y < n
    ensures Blocks(Plain(c, n), n, y) == y * (n - 1)
  {
    if y > 0 {
      PlainBlocks(c, n, y - 1);
      PlainRow(c, n, y - 1, n - 1);
      OneMore(y, n - 1);
    }
  }

  lemma {:induction false} PlainDark(c: bool, n: nat)
    ensures DarkIn(Repeat(c, n)) == if c then n else 0
  {
    if n > 0 {
      PlainDark(c, n - 1);
      assert Repeat(c, n)[..n - 1] == Repeat(c, n - 1);
    }
  }

  lemma {:induction false} PlainDarkRows(c: bool, n: nat, y: nat)
    requires y <= n
    ensures DarkRows(Plain(c, n), n, y) == if c then y * n else 0
  {
    if y > 0 {
      PlainDarkRows(c, n, y - 1);
      PlainDark(c, n);
      OneMore(y, n);
    }
  }

  lemma PlainImbalance(t: nat)
    requires t > 0
    ensures Imbalance(0, t) == 9 && Imbalance(t, t) == 9
  {
    assert (t * 10 + t - 1) / t == 10;
  }

  /** A symbol all of one colour, from side 5 on: every line is one run, every block of four is alike, and the
      balance is as bad as can be. */
  lemma PlainPenalty(c: bool, n: nat)
    requires n >= 5
    ensures Penalty(Plain(c, n), n) == 2 * (n * (n - 2)) + 3 * ((n - 1) * (n - 1)) + 90
  {
    PlainAxis(c, n, true, n);
    PlainAxis(c, n, false, n);
    PlainBlocks(c, n, n - 1);
    PlainDarkRows(c, n, n);
    assert n * n > 0;
    PlainImbalance(n * n);
    hide AxisScore, Blocks, DarkRows, Imbalance;
  }

  // ----- A finder at the edge -----

  function Core(): seq<bool> {
    [true, false, true, true, true, false, true]
  }

  lemma NoRuns()
    ensures Runs([]) == [0]
  {
  }

  /** One module more. */
  lemma RunsMore(line: seq<bool>, runs: seq<nat>, c: bool, more: seq<bool>, longer: seq<nat>)
    requires Runs(line) == runs && more == line + [c] && |runs| > 0 && longer == Extend(runs, c)
    ensures Runs(more) == longer
  {
    RunsStep(line, c);
  }

  lemma CoreStart()
    ensures Runs([true, false, true]) == [0, 1, 1, 1]
  {
    hide Runs;
    NoRuns();
    RunsMore([], [0], true, [true], [0, 1]);
    RunsMore([true], [0, 1], false, [true, false], [0, 1, 1]);
    RunsMore([true, false], [0, 1, 1], true, [true, false, true], [0, 1, 1, 1]);
  }

  lemma CoreHeart()
    ensures Runs([true, false, true, true, true]) == [0, 1, 1, 3]
  {
    hide Runs;
    CoreStart();
    RunsMore([true, false, true], [0, 1, 1, 1], true, [true, false, true, true], [0, 1, 1, 2]);
    RunsMore([true, false, true, true], [0, 1, 1, 2], true, [true, false, true, true, true], [0, 1, 1, 3]);
  }

  lemma CoreRuns()
    ensures Runs(Core()) == [0, 1, 1, 3, 1, 1]
  {
    hide Runs;
    CoreHeart();
    RunsMore([true, false, true, true, true], [0, 1, 1, 3], false, [true, false, true, true, true, false], [0, 1, 1, 3, 1]);
    RunsMore([true, false, true, true, true, false], [0, 1, 1, 3, 1], true, Core(), [0, 1, 1, 3, 1, 1]);
  }

  lemma FinderRuns(n: nat)
    requires n > 7
    ensures var line := Core() + Repeat(false, n - 7);
      Runs(line) == [0, 1, 1, 3, 1, 1, n - 7] && Runs(Quiet(line)) == [n, 1, 1, 3, 1, 1, n - 7 + n]
  {
    CoreRuns();
    hide Runs, Core;
    var line := Core() + Repeat(false, n - 7);
    RunsBeforeLight(Core(), n - 7);
    assert |line| == n by { CoreLength(); }
    RunsAfterLight(n, line);
    RunsBeforeLight(Repeat(false, n) + line, n);
  }

  lemma CoreLength()
    ensures |Core()| == 7
  {
  }

  lemma FindersStep(runs: seq<nat>, m: nat)
    requires 0 < m <= |runs|
    ensures Finders(runs, m) == Finders(runs, m - 1) + (if m % 2 == 1 then FindersAt(runs, m - 1) else 0)
    ensures Finders(runs, 0) == 0
  {
  }

  lemma FinderCount(n: nat)
    requires n >= 11
    ensures Finders([n, 1, 1, 3, 1, 1, n - 7 + n], 7) == 2
  {
    hide Finders;
    var runs := [n, 1, 1, 3, 1, 1, n - 7 + n];
    FindersStep(runs, 7);
    FindersStep(runs, 6);
    FindersStep(runs, 5);
    FindersStep(runs, 4);
    FindersStep(runs, 3);
    FindersStep(runs, 2);
    FindersStep(runs, 1);
  }

  lemma RunScoresStep(runs: seq<nat>, k: nat)
    ensures RunScores(runs + [k]) == RunScores(runs) + RunScore(k) && RunScores([]) == 0
  {
    assert (runs + [k])[..|runs|] == runs;
  }

  lemma FinderRunScores(k: nat)
    ensures RunScores([0, 1, 1, 3, 1, 1, k]) == RunScore(k)
  {
    hide RunScores;
    RunScoresStep([], 0);
    assert [] + [0] == [0];
    RunScoresStep([0], 1);
    assert [0] + [1] == [0, 1];
    RunScoresStep([0, 1], 1);
    assert [0, 1] + [1] == [0, 1, 1];
    RunScoresStep([0, 1, 1], 3);
    assert [0, 1, 1] + [3] == [0, 1, 1, 3];
    RunScoresStep([0, 1, 1, 3], 1);
    assert [0, 1, 1, 3] + [1] == [0, 1, 1, 3, 1];
    RunScoresStep([0, 1, 1, 3, 1], 1);
    assert [0, 1, 1, 3, 1] + [1] == [0, 1, 1, 3, 1, 1];
    RunScoresStep([0, 1, 1, 3, 1, 1], k);
    assert [0, 1, 1, 3, 1, 1] + [k] == [0, 1, 1, 3, 1, 1, k];
  }

  /** A line that begins with a finder and is light after it: the finder counts from both sides, forty each, the
      quiet zone being light, and the light run scores from five on. */
  lemma FinderAtEdge(n: nat)
    requires n >= 11
    ensures LineScore(Core() + Repeat(false, n - 7)) == 80 + (if n < 12 then 0 else n - 9)
  {
    FinderRuns(n);
    FinderCount(n);
    FinderRunScores(n - 7);
    hide Runs, Finders, RunScores, Quiet, Core;
  }

  // ----- A finder between dark modules, of any scale -----

  lemma {:induction false} RunsThen(line: seq<bool>, runs: seq<nat>, c: bool, k: nat)
    requires |runs| > 0 && k > 0 && c == (|runs| % 2 == 1) && Runs(line) == runs
    ensures Runs(line + Repeat(c, k)) == runs + [k]
  {
    hide Runs;
    RepeatMore(c, k - 1);
    if k == 1 {
      RepeatMore(c, 1);
      RunsStep(line, c);
    } else {
      RunsThen(line, runs, c, k - 1);
      Regroup(line, Repeat(c, k - 1), c);
      RunsStep(line + Repeat(c, k - 1), c);
    }
  }

  /** A line spelled out from its runs has these runs. */
  lemma {:induction false} RunsOfExpand(runs: seq<nat>)
    requires |runs| > 0 && OnlyFirstEmpty(runs)
    ensures Runs(Expand(runs)) == runs
  {
    hide Runs;
    var n := |runs| - 1;
    Unsnoc(runs);
    ExpandLast(runs[..n], runs[n]);
    if n == 0 {
      LightRuns(runs[0]);
      assert Expand([]) + Repeat(false, runs[0]) == Repeat(false, runs[0]);
    } else {
      RunsOfExpand(runs[..n]);
      RunsThen(Expand(runs[..n]), runs[..n], n % 2 == 1, runs[n]);
    }
  }

  /** Dark, a light, a finder s times as large, b light, dark. */
  function AmidRuns(s: nat, a: nat, b: nat): seq<nat> {
    [0, 1, a, s, s, 3 * s, s, s, b, 1]
  }

  function Amid(s: nat, a: nat, b: nat): seq<bool> {
    Expand(AmidRuns(s, a, b))
  }

  function AmidCount(s: nat, a: nat, b: nat): nat {
    (if a >= 4 * s && b >= s then 1 else 0) + (if b >= 4 * s && a >= s then 1 else 0)
  }

  function QuietAmid(n: nat, s: nat, a: nat, b: nat): seq<nat> {
    [n, 1, a, s, s, 3 * s, s, s, b, 1, n]
  }

  lemma AmidNone(n: nat, s: nat, a: nat, b: nat)
    requires n > 1 && s > 0 && a > 0 && b > 0
    ensures var runs := QuietAmid(n, s, a, b);
      FindersAt(runs, 0) == 0 && FindersAt(runs, 2) == 0 && FindersAt(runs, 4) == 0 && FindersAt(runs, 6) == 0
  {
  }

  lemma AmidSome(n: nat, s: nat, a: nat, b: nat)
    requires n > 1 && s > 0 && a > 0 && b > 0
    ensures var runs := QuietAmid(n, s, a, b);
      FindersAt(runs, 8) == AmidCount(s, a, b) && FindersAt(runs, 10) == 0
  {
  }

  lemma FindersTwo(runs: seq<nat>, m: nat)
    requires 0 < m && m + 2 <= |runs| && m % 2 == 1
    ensures Finders(runs, m + 2) == Finders(runs, m) + FindersAt(runs, m + 1)
    ensures Finders(runs, 1) == FindersAt(runs, 0)
  {
    hide FindersAt;
    assert Finders(runs, 0) == 0;
  }

  lemma AmidFinders(n: nat, s: nat, a: nat, b: nat)
    requires n > 1 && s > 0 && a > 0 && b > 0
    ensures Finders(QuietAmid(n, s, a, b), 11) == AmidCount(s, a, b)
  {
    hide Finders, FindersAt, AmidCount;
    var runs := QuietAmid(n, s, a, b);
    AmidNone(n, s, a, b);
    AmidSome(n, s, a, b);
    FindersTwo(runs, 1);
    FindersTwo(runs, 3);
    FindersTwo(runs, 5);
    FindersTwo(runs, 7);
    FindersTwo(runs, 9);
  }

  lemma {:induction false} ExpandLength(runs: seq<nat>, k: nat)
    requires k < |runs|
    ensures |Expand(runs)| >= runs[k]
  {
    var n := |runs| - 1;
    if k < n { ExpandLength(runs[..n], k); }
  }

  lemma QuietRuns(line: seq<bool>)
    requires |line| > 0 && |Runs(line)| % 2 == 0
    ensures Runs(Quiet(line)) == Bumped(Runs(line), |line|) + [|line|]
  {
    hide Runs;
    RunsAfterLight(|line|, line);
    RunsBeforeLight(Repeat(false, |line|) + line, |line|);
  }

  /** Within a line a finder of any scale counts once for each side that has four times its module in light, when the other
      side has as much as one; the line's own runs score besides. */
  lemma FinderAmid(s: nat, a: nat, b: nat)
    requires s > 0 && a > 0 && b > 0
    ensures LineScore(Amid(s, a, b)) == RunScores(AmidRuns(s, a, b)) + 40 * AmidCount(s, a, b)
  {
    hide Runs, Finders, RunScores, Expand, Quiet;
    var runs := AmidRuns(s, a, b);
    var line := Amid(s, a, b);
    RunsOfExpand(runs);
    ExpandLength(runs, 5);
    var n := |line|;
    QuietRuns(line);
    assert Bumped(runs, n) + [n] == QuietAmid(n, s, a, b);
    AmidFinders(n, s, a, b);
  }

  // ----- Counting -----

  /** Where four modules are alike. */
  function AlikeBelow(g: Grid, n: nat, y: nat): set<Spot>
    requires IsGrid(g, n) && y < n
  {
    set x, r | 0 <= x < n - 1 && 0 <= r < y && g[r][x] == g[r][x + 1] == g[r + 1][x] == g[r + 1][x + 1] :: (x, r)
  }

  function AlikeIn(g: Grid, n: nat, y: nat, k: nat): set<Spot>
    requires IsGrid(g, n) && y + 1 < n && k < n
  {
    set x | 0 <= x < k && g[y][x] == g[y][x + 1] == g[y + 1][x] == g[y + 1][x + 1] :: (x, y)
  }

  lemma {:induction false} RowCounted(g: Grid, n: nat, y: nat, k: nat)
    requires IsGrid(g, n) && y + 1 < n && k < n
    ensures BlocksInRow(g, n, y, k) == |AlikeIn(g, n, y, k)|
  {
    if k > 0 {
      RowCounted(g, n, y, k - 1);
      var before, after := AlikeIn(g, n, y, k - 1), AlikeIn(g, n, y, k);
      if BlockAt(g, n, k - 1, y) {
        assert after == before + {(k - 1, y)};
      } else {
        assert after == before;
      }
    } else {
      assert AlikeIn(g, n, y, 0) == {};
    }
  }

  /** Rule two counts each block of four alike once. */
  lemma {:induction false} BlocksCounted(g: Grid, n: nat, y: nat)
    requires IsGrid(g, n) && y < n
    ensures Blocks(g, n, y) == |AlikeBelow(g, n, y)|
  {
    if y > 0 {
      BlocksCounted(g, n, y - 1);
      RowCounted(g, n, y - 1, n - 1);
      AlikeStep(g, n, y);
      hide AlikeBelow, AlikeIn;
      var before, row := AlikeBelow(g, n, y - 1), AlikeIn(g, n, y - 1, n - 1);
      assert |before + row| == |before| + |row|;
    } else {
      assert AlikeBelow(g, n, 0) == {};
    }
  }

  lemma AlikeStep(g: Grid, n: nat, y: nat)
    requires IsGrid(g, n) && 0 < y < n
    ensures AlikeBelow(g, n, y) == AlikeBelow(g, n, y - 1) + AlikeIn(g, n, y - 1, n - 1)
    ensures AlikeBelow(g, n, y - 1) !! AlikeIn(g, n, y - 1, n - 1)
  {
    forall c ensures c in AlikeBelow(g, n, y) <==> c in AlikeBelow(g, n, y - 1) || c in AlikeIn(g, n, y - 1, n - 1) {
    }
  }

  /** The dark modules of the first y rows. */
  function DarkSpots(g: Grid, n: nat, y: nat): set<Spot>
    requires IsGrid(g, n) && y <= n
  {
    set x, r | 0 <= x < n && 0 <= r < y && g[r][x] :: (x, r)
  }

  function DarkOf(line: seq<bool>, y: nat, k: nat): set<Spot>
    requires k <= |line|
  {
    set x | 0 <= x < k && line[x] :: (x, y)
  }

  lemma {:induction false} LineCounted(line: seq<bool>, y: nat, k: nat)
    requires k <= |line|
    ensures DarkIn(line[..k]) == |DarkOf(line, y, k)|
  {
    if k > 0 {
      LineCounted(line, y, k - 1);
      assert line[..k][..k - 1] == line[..k - 1];
      if line[k - 1] {
        assert DarkOf(line, y, k) == DarkOf(line, y, k - 1) + {(k - 1, y)};
      } else {
        assert DarkOf(line, y, k) == DarkOf(line, y, k - 1);
      }
    } else {
      assert DarkOf(line, y, 0) == {};
    }
  }

  /** Rule four counts each dark module once. */
  lemma {:induction false} DarkCounted(g: Grid, n: nat, y: nat)
    requires IsGrid(g, n) && y <= n
    ensures DarkRows(g, n, y) == |DarkSpots(g, n, y)|
  {
    if y > 0 {
      DarkCounted(g, n, y - 1);
      LineCounted(g[y - 1], y - 1, n);
      assert g[y - 1][..n] == g[y - 1];
      var before, row := DarkSpots(g, n, y - 1), DarkOf(g[y - 1], y - 1, n);
      assert DarkSpots(g, n, y) == before + row;
      assert before !! row;
    } else {
      assert DarkSpots(g, n, 0) == {};
    }
  }

  /** k steps of five per cent from half dark are reached exactly when the dark modules are within them. */
  lemma ImbalanceWhen(dark: nat, total: nat, k: nat)
    requires total > 0
    ensures Imbalance(dark, total) < k <==> -(k * total) <= 10 * (2 * dark - total) <= k * total
  {
    var off := if dark * 20 >= total * 10 then dark * 20 - total * 10 else total * 10 - dark * 20;
    var q := (off + total - 1) / total;
    RoundedUp(off, total, k);
    hide *;
  }

  lemma RoundedUp(off: nat, total: nat, k: nat)
    requires total > 0
    ensures (off + total - 1) / total <= k <==> off <= k * total
  {
    var q, r := (off + total - 1) / total, (off + total - 1) % total;
    assert off + total - 1 == q * total + r;
    if q <= k {
      Monotone(q, k, total);
    } else {
      Monotone(k + 1, q, total);
      assert (k + 1) * total == k * total + total;
    }
  }

  lemma Monotone(a: nat, b: nat, t: nat)
    requires a <= b
    ensures a * t <= b * t
  {
    assert b * t == a * t + (b - a) * t;
  }
}
