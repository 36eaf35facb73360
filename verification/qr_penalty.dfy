/** The penalty of a symbol. The encoder scans each line once with a seven-run history;
    the specification is stated on the runs of the line with its quiet zone around it. */
module QrPenalty {
  import opened QrWalk

  // ----- Runs -----

  /** The runs of a line with one more module. */
  function Extend(runs: seq<nat>, c: bool): (longer: seq<nat>)
    requires |runs| > 0
    ensures |longer| > 0
  {
    var last := |runs| - 1;
    if c == (last % 2 == 1) then runs[last := runs[last] + 1] else runs + [1]
  }

  /** The lengths of a line's runs, light first; the first may be empty. */
  function Runs(line: seq<bool>): (runs: seq<nat>)
    ensures |runs| > 0
  {
    if |line| == 0 then [0] else Extend(Runs(line[..|line| - 1]), line[|line| - 1])
  }

  lemma RunsStep(line: seq<bool>, c: bool)
    ensures Runs(line + [c]) == Extend(Runs(line), c)
  {
    assert (line + [c])[..|line|] == line;
  }

  function Repeat(c: bool, n: nat): seq<bool> {
    seq(n, _ => c)
  }

  /** The line with these runs. */
  function Expand(runs: seq<nat>): seq<bool> {
    if |runs| == 0 then []
    else Expand(runs[..|runs| - 1]) + Repeat((|runs| - 1) % 2 == 1, runs[|runs| - 1])
  }

  lemma ExpandLast(runs: seq<nat>, more: nat)
    ensures Expand(runs + [more]) == Expand(runs) + Repeat(|runs| % 2 == 1, more)
  {
    assert (runs + [more])[..|runs|] == runs;
  }

  lemma RepeatMore(c: bool, n: nat)
    ensures Repeat(c, n + 1) == Repeat(c, n) + [c]
    ensures Repeat(c, 1) == [c]
  {
  }

  lemma Regroup(a: seq<bool>, b: seq<bool>, c: bool)
    ensures a + (b + [c]) == (a + b) + [c]
  {
  }

  lemma ExpandExtend(head: seq<nat>, k: nat, c: bool)
    ensures Expand(Extend(head + [k], c)) == Expand(head + [k]) + [c]
  {
    hide Expand, Repeat;
    ExpandLast(head, k);
    if c == (|head| % 2 == 1) {
      assert Extend(head + [k], c) == head + [k + 1];
      ExpandLast(head, k + 1);
      RepeatMore(c, k);
      Regroup(Expand(head), Repeat(c, k), c);
    } else {
      ExpandLast(head + [k], 1);
      RepeatMore(c, 0);
    }
  }

  ghost predicate OnlyFirstEmpty(runs: seq<nat>) {
    forall k :: 0 < k < |runs| ==> runs[k] > 0
  }

  lemma ExtendPositive(runs: seq<nat>, c: bool)
    requires |runs| > 0 && OnlyFirstEmpty(runs)
    ensures OnlyFirstEmpty(Extend(runs, c))
  {
  }

  lemma Unsnoc(runs: seq<nat>)
    requires |runs| > 0
    ensures runs == runs[..|runs| - 1] + [runs[|runs| - 1]]
  {
  }

  /** `Runs` is the run-length form: it spells the line out again, and only the first run
      can be empty. */
  lemma {:induction false} RunsExpand(line: seq<bool>)
    ensures Expand(Runs(line)) == line
    ensures OnlyFirstEmpty(Runs(line))
    decreases |line|
  {
    if |line| == 0 {
      ExpandLast([], 0);
      assert [] + [0] == Runs([]);
      assert Expand([]) + Repeat(false, 0) == [];
    } else {
      var short, c := line[..|line| - 1], line[|line| - 1];
      RunsExpand(short);
      assert line == short + [c];
      hide *;
      var runs := Runs(short);
      RunsStep(short, c);
      ExtendPositive(runs, c);
      Unsnoc(runs);
      ExpandExtend(runs[..|runs| - 1], runs[|runs| - 1], c);
    }
  }

  // ----- The four rules -----

  /** Five alike score three, and every further one adds one. */
  function RunScore(length: nat): nat {
    if length < 5 then 0 else length - 2
  }

  function RunScores(runs: seq<nat>): nat {
    if |runs| == 0 then 0 else RunScores(runs[..|runs| - 1]) + RunScore(runs[|runs| - 1])
  }

  /** The run i places before run k, or zero. */
  function Back(runs: seq<nat>, k: nat, i: nat): nat
    requires k < |runs|
  {
    if i <= k then runs[k - i] else 0
  }

  /** How often the runs ending at run k look like a finder: dark n, light n, dark 3n,
      light n, dark n, with 4n of light on one side and n on the other. */
  function FindersAt(runs: seq<nat>, k: nat): nat
    requires k < |runs|
  {
    var n := Back(runs, k, 1);
    var core := n > 0 && Back(runs, k, 2) == n && Back(runs, k, 3) == 3 * n && Back(runs, k, 4) == n && Back(runs, k, 5) == n;
    (if core && Back(runs, k, 0) >= 4 * n && Back(runs, k, 6) >= n then 1 else 0)
    + (if core && Back(runs, k, 6) >= 4 * n && Back(runs, k, 0) >= n then 1 else 0)
  }

  /** Finder-like sequences ending at the light runs among the first m. */
  function Finders(runs: seq<nat>, m: nat): nat
    requires m <= |runs|
  {
    if m == 0 then 0
    else Finders(runs, m - 1) + (if (m - 1) % 2 == 0 then FindersAt(runs, m - 1) else 0)
  }

  /** The line between two quiet zones. */
  function Quiet(line: seq<bool>): seq<bool> {
    Repeat(false, |line|) + line + Repeat(false, |line|)
  }

  /** Rules one and three for one line. */
  function LineScore(line: seq<bool>): nat {
    var runs := Runs(Quiet(line));
    RunScores(Runs(line)) + Finders(runs, |runs|) * 40
  }

  function Row(g: Grid, n: nat, y: nat): seq<bool>
    requires IsGrid(g, n) && y < n
  {
    g[y]
  }

  function ColumnOf(g: Grid, n: nat, x: nat): seq<bool>
    requires IsGrid(g, n) && x < n
  {
    seq(n, y requires 0 <= y < n => g[y][x])
  }

  /** Rules one and three over the first a lines of one axis. */
  function AxisScore(g: Grid, n: nat, rows: bool, a: nat): nat
    requires IsGrid(g, n) && a <= n
  {
    if a == 0 then 0
    else AxisScore(g, n, rows, a - 1) + LineScore(if rows then Row(g, n, a - 1) else ColumnOf(g, n, a - 1))
  }

  /** The upper left corner of a block of four alike. */
  predicate BlockAt(g: Grid, n: nat, x: nat, y: nat)
    requires IsGrid(g, n) && x + 1 < n && y + 1 < n
  {
    g[y][x] == g[y][x + 1] && g[y][x] == g[y + 1][x] && g[y][x] == g[y + 1][x + 1]
  }

  function BlocksInRow(g: Grid, n: nat, y: nat, x: nat): nat
    requires IsGrid(g, n) && y + 1 < n && x < n
  {
    if x == 0 then 0 else BlocksInRow(g, n, y, x - 1) + (if BlockAt(g, n, x - 1, y) then 1 else 0)
  }

  function Blocks(g: Grid, n: nat, y: nat): nat
    requires IsGrid(g, n) && y < n
  {
    if y == 0 then 0 else Blocks(g, n, y - 1) + BlocksInRow(g, n, y - 1, n - 1)
  }

  function DarkIn(line: seq<bool>): nat {
    if |line| == 0 then 0 else DarkIn(line[..|line| - 1]) + (if line[|line| - 1] then 1 else 0)
  }

  function DarkRows(g: Grid, n: nat, y: nat): nat
    requires IsGrid(g, n) && y <= n
  {
    if y == 0 then 0 else DarkRows(g, n, y - 1) + DarkIn(g[y - 1])
  }

  /** The number of five per cent steps from half dark, rounded up, less one. */
  function Imbalance(dark: nat, total: nat): int
    requires total > 0
  {
    var off := if dark * 20 >= total * 10 then dark * 20 - total * 10 else total * 10 - dark * 20;
    (off + total - 1) / total - 1
  }

  function Penalty(g: Grid, n: nat): int
    requires IsGrid(g, n) && n > 0
  {
    AxisScore(g, n, true, n) + AxisScore(g, n, false, n) + 3 * Blocks(g, n, n - 1) + 10 * Imbalance(DarkRows(g, n, n), n * n)
  }

  // ----- The scan of one line -----

  /** The history holds the last seven of these runs, latest first, zeros beyond the first. */
  ghost predicate Recent(history: seq<nat>, runs: seq<nat>) {
    && |history| == 7
    && forall i :: 0 <= i < 7 ==> history[i] == if i < |runs| then runs[|runs| - 1 - i] else 0
  }

  method CountFinders(history: seq<nat>, ghost runs: seq<nat>) returns (count: nat)
    requires |runs| > 0 && Recent(history, runs)
    ensures count == FindersAt(runs, |runs| - 1)
  {
    assert forall i :: 0 <= i < 7 ==> history[i] == Back(runs, |runs| - 1, i);
    var n := history[1];
    var core := n > 0 && history[2] == n && history[3] == n * 3 && history[4] == n && history[5] == n;
    count := (if core && history[0] >= n * 4 && history[6] >= n then 1 else 0)
           + (if core && history[6] >= n * 4 && history[0] >= n then 1 else 0);
  }

  /** A completed run joins the history; the first is longer by the quiet zone. */
  method AddRun(length: nat, history: seq<nat>, size: nat, ghost runs: seq<nat>) returns (h: seq<nat>)
    requires Recent(history, runs) && forall k :: 0 <= k < |runs| ==> runs[k] > 0
    ensures Recent(h, runs + [if |runs| == 0 then length + size else length])
  {
    var l := length;
    if history[0] == 0 {
      l := l + size;
    }
    h := [l] + history[..6];
  }

  /** Earlier runs decide earlier finders. */
  lemma {:induction false} FindersPrefix(runs: seq<nat>, more: seq<nat>, m: nat)
    requires m <= |runs| <= |more| && forall k :: 0 <= k < |runs| ==> runs[k] == more[k]
    ensures Finders(runs, m) == Finders(more, m)
  {
    if m > 0 {
      FindersPrefix(runs, more, m - 1);
    }
  }

  /** The runs of a line preceded by n light modules. */
  function Bumped(runs: seq<nat>, n: nat): (longer: seq<nat>)
    requires |runs| > 0
    ensures |longer| == |runs|
  {
    [runs[0] + n] + runs[1..]
  }

  lemma BumpedExtend(runs: seq<nat>, n: nat, c: bool)
    requires |runs| > 0
    ensures Extend(Bumped(runs, n), c) == Bumped(Extend(runs, c), n)
  {
  }

  /** Leading light lengthens the first run. */
  lemma {:induction false} RunsAfterLight(n: nat, line: seq<bool>)
    ensures Runs(Repeat(false, n) + line) == Bumped(Runs(line), n)
    decreases |line|, n
  {
    if |line| > 0 {
      var short, c := line[..|line| - 1], line[|line| - 1];
      RunsAfterLight(n, short);
      assert line == short + [c];
      assert Repeat(false, n) + line == (Repeat(false, n) + short) + [c];
      hide *;
      RunsStep(short, c);
      RunsStep(Repeat(false, n) + short, c);
      BumpedExtend(Runs(short), n, c);
    } else if n > 0 {
      RunsAfterLight(n - 1, []);
      assert Repeat(false, n) + line == (Repeat(false, n - 1) + []) + [false];
      RunsStep(Repeat(false, n - 1) + [], false);
    } else {
      assert Repeat(false, n) + line == [];
    }
  }

  /** The runs of a line followed by n light modules. */
  function Lengthened(runs: seq<nat>, n: nat): seq<nat>
    requires |runs| > 0
  {
    if |runs| % 2 == 1 then runs[|runs| - 1 := runs[|runs| - 1] + n] else runs + [n]
  }

  /** Trailing light lengthens the last run or adds one. */
  lemma {:induction false} RunsBeforeLight(line: seq<bool>, n: nat)
    requires n > 0
    ensures Runs(line + Repeat(false, n)) == Lengthened(Runs(line), n)
  {
    hide Runs, Repeat, Lengthened, Extend;
    RepeatSplits(line, n);
    LengthenedOnce(Runs(line), n);
    if n == 1 {
      RunsStep(line, false);
    } else {
      RunsBeforeLight(line, n - 1);
      RunsStep(line + Repeat(false, n - 1), false);
    }
  }

  lemma RepeatSplits(line: seq<bool>, n: nat)
    requires n > 0
    ensures line + Repeat(false, n) == if n == 1 then line + [false] else line + Repeat(false, n - 1) + [false]
  {
  }

  lemma LengthenedOnce(runs: seq<nat>, n: nat)
    requires |runs| > 0 && n > 0
    ensures |Lengthened(runs, n)| > 0
    ensures Lengthened(runs, n) == if n == 1 then Extend(runs, false) else Extend(Lengthened(runs, n - 1), false)
  {
  }

  /** The quiet line's runs, from the line's own. */
  lemma QuietRuns(line: seq<bool>)
    requires |line| > 0
    ensures Runs(Quiet(line)) == Lengthened(Bumped(Runs(line), |line|), |line|)
  {
    var n := |line|;
    assert Quiet(line) == (Repeat(false, n) + line) + Repeat(false, n);
    hide *;
    RunsAfterLight(n, line);
    RunsBeforeLight(Repeat(false, n) + line, n);
  }

  /** The state of the scan after a line's first modules: the runs completed so far, the first
      lengthened by the quiet zone, and the run still open. */
  ghost predicate Scanning(runs: seq<nat>, size: nat, done: seq<nat>, dark: bool, run: nat, history: seq<nat>) {
    && size > 0
    && |runs| == |done| + 1
    && (forall k :: 0 <= k < |done| ==> done[k] > 0 && done[k] == if k == 0 then runs[0] + size else runs[k])
    && dark == (|done| % 2 == 1)
    && run == runs[|done|]
    && Recent(history, done)
  }

  /** A completed run as the history holds it. */
  function Closed(done: seq<nat>, run: nat, size: nat): nat {
    if |done| == 0 then run + size else run
  }

  lemma ScanSame(runs: seq<nat>, size: nat, done: seq<nat>, dark: bool, run: nat, history: seq<nat>)
    requires Scanning(runs, size, done, dark, run, history)
    ensures Scanning(Extend(runs, dark), size, done, dark, run + 1, history)
    ensures RunScores(Extend(runs, dark)) == RunScores(runs) + RunScore(run + 1) - RunScore(run)
  {
    var longer, last := Extend(runs, dark), |done|;
    assert longer[..last] == runs[..last];
  }

  lemma ScanOther(runs: seq<nat>, size: nat, done: seq<nat>, dark: bool, run: nat, history: seq<nat>, next: seq<nat>)
    requires Scanning(runs, size, done, dark, run, history)
    requires run > 0 || |done| == 0
    requires Recent(next, done + [Closed(done, run, size)])
    ensures Scanning(Extend(runs, !dark), size, done + [Closed(done, run, size)], !dark, 1, next)
    ensures RunScores(Extend(runs, !dark)) == RunScores(runs)
  {
    var longer := Extend(runs, !dark);
    assert longer[..|runs|] == runs;
    assert RunScore(1) == 0;
  }

  lemma FindersNext(done: seq<nat>, closed: nat)
    ensures Finders(done + [closed], |done| + 1)
         == Finders(done, |done|) + (if |done| % 2 == 0 then FindersAt(done + [closed], |done|) else 0)
  {
    FindersPrefix(done, done + [closed], |done|);
  }

  /** The runs of the quiet line, once the scan has reached the end of the line. */
  lemma ScanEnd(runs: seq<nat>, size: nat, done: seq<nat>, dark: bool, run: nat, history: seq<nat>)
    requires Scanning(runs, size, done, dark, run, history)
    ensures Lengthened(Bumped(runs, size), size)
         == if dark then done + [run] + [size] else done + [Closed(done, run + size, size)]
  {
    EndBumped(runs, size, done, dark, run, history);
    var all := done + [Closed(done, run, size)];
    hide Bumped, Scanning;
    if dark { assert all + [size] == done + [run] + [size]; }
  }

  lemma EndBumped(runs: seq<nat>, size: nat, done: seq<nat>, dark: bool, run: nat, history: seq<nat>)
    requires Scanning(runs, size, done, dark, run, history)
    ensures |runs| == |done| + 1 && Bumped(runs, size) == done + [Closed(done, run, size)]
    ensures dark <==> |done| % 2 == 1
  {
    hide Recent;
  }

  method Finish(dark: bool, length: nat, history: seq<nat>, size: nat, ghost done: seq<nat>) returns (count: nat)
    requires size > 0 && Recent(history, done) && forall k :: 0 <= k < |done| ==> done[k] > 0
    requires dark ==> length > 0 && |done| > 0
    ensures var all := if dark then done + [length] + [size] else done + [Closed(done, length + size, size)];
      count == FindersAt(all, |all| - 1)
  {
    hide FindersAt, Recent;
    var rest, h := length, history;
    ghost var runs := done;
    if dark {
      h := AddRun(rest, h, size, runs);
      runs := runs + [length];
      rest := 0;
    }
    h := AddRun(rest + size, h, size, runs);
    runs := runs + [Closed(runs, rest + size, size)];
    count := CountFinders(h, runs);
  }

  /** One line scanned with a seven-run history. */
  method ScanLine(line: seq<bool>, size: nat) returns (result: int)
    requires |line| == size > 0
    ensures result == LineScore(line)
  {
    hide Runs, Extend, FindersAt, Finders, RunScores, Recent;
    result := 0;
    var dark, run := false, 0;
    var history := [0, 0, 0, 0, 0, 0, 0];
    ghost var runs, done := Runs([]), [];
    ScanStart();
    for b := 0 to size
      invariant runs == Runs(line[..b])
      invariant Scanning(runs, size, done, dark, run, history) && (run > 0 || |done| == 0)
      invariant result == RunScores(runs) + 40 * Finders(done, |done|)
    {
      assert line[..b + 1] == line[..b] + [line[b]];
      RunsStep(line[..b], line[b]);
      if line[b] == dark {
        ScanSame(runs, size, done, dark, run, history);
        run := run + 1;
        if run == 5 {
          result := result + 3;
        } else if run > 5 {
          result := result + 1;
        }
      } else {
        var next := AddRun(run, history, size, done);
        ScanOther(runs, size, done, dark, run, history, next);
        FindersNext(done, Closed(done, run, size));
        history := next;
        done := done + [Closed(done, run, size)];
        if !dark {
          var count := CountFinders(history, done);
          result := result + count * 40;
        }
        dark := line[b];
        run := 1;
      }
      runs := Extend(runs, line[b]);
    }
    assert line[..size] == line;
    QuietRuns(line);
    ScanEnd(runs, size, done, dark, run, history);
    var last := Finish(dark, run, history, size, done);
    LastFinders(done, dark, run, size);
    result := result + last * 40;
  }

  /** The finders found at the line's end are those that its last runs complete. */
  lemma LastFinders(done: seq<nat>, dark: bool, run: nat, size: nat)
    requires dark == (|done| % 2 == 1)
    ensures var all := if dark then done + [run] + [size] else done + [Closed(done, run + size, size)];
      Finders(all, |all|) == Finders(done, |done|) + FindersAt(all, |all| - 1)
  {
    hide FindersAt, Closed;
    if dark {
      FindersNext(done, run);
      FindersNext(done + [run], size);
    } else {
      FindersNext(done, Closed(done, run + size, size));
    }
  }

  lemma ScanStart()
    ensures Runs([]) == [0] && RunScores([0]) == 0
    ensures Recent([0, 0, 0, 0, 0, 0, 0], [])
    ensures Finders([], 0) == 0
  {
    assert RunScores([0][..0]) == 0;
  }

  // ----- The whole symbol -----

  method ScanAxis(modules: array2<bool>, rows: bool) returns (result: int)
    requires modules.Length0 == modules.Length1 > 0
    ensures result == AxisScore(GridOf(modules), modules.Length0, rows, modules.Length0)
  {
    hide LineScore;
    var size := modules.Length0;
    ghost var g := GridOf(modules);
    result := 0;
    for a := 0 to size
      invariant result == AxisScore(g, size, rows, a)
    {
      ghost var whole := if rows then Row(g, size, a) else ColumnOf(g, size, a);
      var line := [];
      for b := 0 to size
        invariant line == whole[..b]
      {
        line := line + [if rows then modules[a, b] else modules[b, a]];
      }
      assert whole[..size] == whole;
      var score := ScanLine(line, size);
      result := result + score;
    }
  }

  method CountBlocks(modules: array2<bool>) returns (count: nat)
    requires modules.Length0 == modules.Length1 > 0
    ensures count == Blocks(GridOf(modules), modules.Length0, modules.Length0 - 1)
  {
    var size := modules.Length0;
    ghost var g := GridOf(modules);
    count := 0;
    for y := 0 to size - 1
      invariant count == Blocks(g, size, y)
    {
      for x := 0 to size - 1
        invariant count == Blocks(g, size, y) + BlocksInRow(g, size, y, x)
      {
        var c := modules[y, x];
        if c == modules[y, x + 1] && c == modules[y + 1, x] && c == modules[y + 1, x + 1] {
          count := count + 1;
        }
      }
    }
  }

  method CountDark(modules: array2<bool>) returns (dark: nat)
    requires modules.Length0 == modules.Length1
    ensures dark == DarkRows(GridOf(modules), modules.Length0, modules.Length0)
  {
    var size := modules.Length0;
    ghost var g := GridOf(modules);
    dark := 0;
    for y := 0 to size
      invariant dark == DarkRows(g, size, y)
    {
      ghost var above := dark;
      for x := 0 to size
        invariant dark == above + DarkIn(g[y][..x])
      {
        assert g[y][..x + 1][..x] == g[y][..x];
        if modules[y, x] {
          dark := dark + 1;
        }
      }
      assert g[y][..size] == g[y];
    }
  }

  method PenaltyOf(modules: array2<bool>) returns (result: int)
    requires modules.Length0 == modules.Length1 > 0
    ensures result == Penalty(GridOf(modules), modules.Length0)
  {
    hide AxisScore, Blocks, DarkRows, Imbalance, GridOf;
    var size := modules.Length0;
    var rows := ScanAxis(modules, true);
    var columns := ScanAxis(modules, false);
    var blocks := CountBlocks(modules);
    var dark := CountDark(modules);
    var total := size * size;
    result := rows + columns + blocks * 3 + Imbalance(dark, total) * 10;
  }
}
