/** What a finished symbol costs: runs, blocks, false finders and imbalance. */
module QrPenalty {
  /** A module of the finished symbol; outside of it everything is light. */
  function At(modules: seq<seq<bool>>, r: int, c: int): bool {
    0 <= r < |modules| && 0 <= c < |modules[r]| && modules[r][c]
  }

  function Row(modules: seq<seq<bool>>, size: nat, r: nat): (line: seq<bool>)
    ensures |line| == size
  {
    seq(size, c requires 0 <= c => At(modules, r, c))
  }

  function Column(modules: seq<seq<bool>>, size: nat, c: nat): (line: seq<bool>)
    ensures |line| == size
  {
    seq(size, r requires 0 <= r => At(modules, r, c))
  }

  // ---------- Rule one: runs of one colour ----------

  /** The five modules that end at `e` are of one colour. */
  predicate FiveEnd(line: seq<bool>, e: int) {
    4 <= e < |line| && line[e - 4] == line[e - 3] == line[e - 2] == line[e - 1] == line[e]
  }

  /** Five in a run cost three, and each module more costs one. */
  function RunPoints(line: seq<bool>, e: int): nat {
    if !FiveEnd(line, e) then 0 else if FiveEnd(line, e - 1) then 1 else 3
  }

  function RunScore(line: seq<bool>, n: nat): nat {
    if n == 0 then 0 else RunScore(line, n - 1) + RunPoints(line, n - 1)
  }

  function RunsScore(modules: seq<seq<bool>>, size: nat, n: nat): nat {
    if n == 0 then 0
    else RunsScore(modules, size, n - 1) + RunScore(Row(modules, size, n - 1), size) + RunScore(Column(modules, size, n - 1), size)
  }

  /** The modules from `start` up to `end` are of one colour, and the one before is not. */
  ghost predicate RunFrom(line: seq<bool>, start: int, end: int) {
    && 0 <= start < end <= |line|
    && (forall k :: start <= k < end ==> line[k] == line[start])
    && (start > 0 ==> line[start - 1] != line[start])
  }

  /** How far a run has got decides what its next module costs. */
  lemma RunCosts(line: seq<bool>, start: int, end: int)
    requires RunFrom(line, start, end) && end < |line|
    ensures RunPoints(line, end)
      == if line[end] != line[end - 1] then 0
         else if end + 1 - start > 5 then 1
         else if end + 1 - start == 5 then 3
         else 0
  {
  }

  /** A whole run of five or more costs two less than its length, a shorter one nothing. */
  lemma {:induction false} RunIsWorth(line: seq<bool>, start: int, end: int)
    requires RunFrom(line, start, end)
    ensures RunScore(line, end) == RunScore(line, start) + if end - start >= 5 then end - start - 2 else 0
    decreases end - start
  {
    hide RunPoints;
    if end == start + 1 {
      RunBegins(line, start);
    } else {
      RunIsWorth(line, start, end - 1);
      RunCosts(line, start, end - 1);
    }
  }

  lemma RunBegins(line: seq<bool>, start: int)
    requires 0 <= start < |line| && (start > 0 ==> line[start - 1] != line[start])
    ensures RunPoints(line, start) == 0
  {
  }

  /** The loop over one line: it counts a run and charges for it when it ends. */
  method ScoreRuns(line: seq<bool>) returns (score: nat)
    ensures score == RunScore(line, |line|)
  {
    hide RunPoints;
    score := 0;
    var run, i := 1, 1;
    if line != [] { NoRunYet(line); }
    while i < |line|
      invariant run >= 1 && i >= 1
      invariant line != [] ==>
        i <= |line| && RunFrom(line, i - run, i) && score + (if run >= 5 then run - 2 else 0) == RunScore(line, i)
      invariant line == [] ==> score == 0 && run == 1
    {
      RunCosts(line, i - run, i);
      if line[i] == line[i - 1] {
        run := run + 1;
      } else {
        if run >= 5 { score := score + run - 2; }
        run := 1;
      }
      i := i + 1;
    }
    if run >= 5 { score := score + run - 2; }
  }

  lemma NoRunYet(line: seq<bool>)
    ensures RunScore(line, 1) == 0
  {
  }

  method ScoreAllRuns(modules: seq<seq<bool>>, size: nat) returns (score: nat)
    ensures score == RunsScore(modules, size, size)
  {
    score := 0;
    for r := 0 to size
      invariant score == RunsScore(modules, size, r)
    {
      var row := ScoreRuns(Row(modules, size, r));
      var column := ScoreRuns(Column(modules, size, r));
      score := score + row + column;
    }
  }

  // ---------- Rule two: blocks of one colour ----------

  predicate IsBlock(modules: seq<seq<bool>>, r: nat, c: nat) {
    At(modules, r, c) == At(modules, r, c + 1) == At(modules, r + 1, c) == At(modules, r + 1, c + 1)
  }

  /** The blocks whose upper left module lies in the first `n` rows, and `k` columns of the next. */
  function BlocksBefore(modules: seq<seq<bool>>, size: nat, n: nat, k: nat): set<(nat, nat)> {
    set r: nat, c: nat | r < size && c < size && r + 1 < size && c + 1 < size
      && (r < n || (r == n && c < k)) && IsBlock(modules, r, c) :: (r, c)
  }

  lemma BlockNext(modules: seq<seq<bool>>, size: nat, n: nat, k: nat)
    requires n + 1 < size && k + 1 < size
    ensures |BlocksBefore(modules, size, n, k + 1)|
      == |BlocksBefore(modules, size, n, k)| + (if IsBlock(modules, n, k) then 1 else 0)
  {
    hide IsBlock;
    var before, after := BlocksBefore(modules, size, n, k), BlocksBefore(modules, size, n, k + 1);
    if IsBlock(modules, n, k) {
      assert after == before + {(n, k)};
      assert (n, k) !in before;
    } else {
      assert after == before;
    }
  }

  /** Three for every two by two block of one colour. */
  method ScoreBlocks(modules: seq<seq<bool>>, size: nat) returns (score: nat)
    ensures score == 3 * |BlocksBefore(modules, size, size, 0)|
  {
    hide IsBlock;
    score := 0;
    assert BlocksBefore(modules, size, 0, 0) == {};
    var last := if size > 0 then size - 1 else 0;
    for r := 0 to last
      invariant score == 3 * |BlocksBefore(modules, size, r, 0)|
    {
      for c := 0 to last
        invariant score == 3 * |BlocksBefore(modules, size, r, c)|
      {
        BlockNext(modules, size, r, c);
        if IsBlock(modules, r, c) { score := score + 3; }
      }
      assert BlocksBefore(modules, size, r, last) == BlocksBefore(modules, size, r + 1, 0);
    }
    assert BlocksBefore(modules, size, last, 0) == BlocksBefore(modules, size, size, 0);
  }

  // ---------- Rule three: what looks like a finder ----------

  const FINDER: seq<bool> := [true, false, true, true, true, false, true]

  predicate FinderAt(line: seq<bool>, start: nat) {
    start + 7 <= |line| && line[start..start + 7] == FINDER
  }

  /** Four light modules stand from `from` on. */
  predicate FourLight(line: seq<bool>, from: int) {
    0 <= from && from + 4 <= |line| && forall k :: from <= k < from + 4 ==> !line[k]
  }

  /** Forty for a finder with four light modules before it, and forty with four behind. */
  function FinderPoints(line: seq<bool>, start: nat): nat {
    if !FinderAt(line, start) then 0
    else (if FourLight(line, start - 4) then 40 else 0) + (if FourLight(line, start + 7) then 40 else 0)
  }

  function FinderScore(line: seq<bool>, n: nat): nat {
    if n == 0 then 0 else FinderScore(line, n - 1) + FinderPoints(line, n - 1)
  }

  function FindersScore(modules: seq<seq<bool>>, size: nat, n: nat): nat {
    if n == 0 then 0
    else
      FindersScore(modules, size, n - 1) + FinderScore(Row(modules, size, n - 1), size)
      + FinderScore(Column(modules, size, n - 1), size)
  }

  predicate AllLight(cells: seq<bool>) {
    forall k :: 0 <= k < |cells| ==> !cells[k]
  }

  /** What one place of a line costs. */
  method ScorePlace(line: seq<bool>, start: nat) returns (score: nat)
    requires start + 7 <= |line|
    ensures score == FinderPoints(line, start)
  {
    hide FourLight, AllLight;
    score := 0;
    if line[start..start + 7] == FINDER {
      var before := line[if start >= 4 then start - 4 else 0..start];
      var behind := line[start + 7..if start + 11 <= |line| then start + 11 else |line|];
      LightSlice(line, start - 4, before, start);
      LightSlice(line, start + 7, behind, start + 11);
      if |before| == 4 && AllLight(before) { score := score + 40; }
      if |behind| == 4 && AllLight(behind) { score := score + 40; }
    }
  }

  method ScoreFinders(line: seq<bool>) returns (score: nat)
    ensures score == FinderScore(line, |line|)
  {
    hide FinderPoints;
    score := 0;
    var start := 0;
    while start + 7 <= |line|
      invariant 0 <= start <= |line| && score == FinderScore(line, start)
    {
      var place := ScorePlace(line, start);
      score := score + place;
      start := start + 1;
    }
    NoFinderLeft(line, start);
  }

  /** A slice cut off at an end of the line is shorter than four. */
  lemma LightSlice(line: seq<bool>, from: int, cells: seq<bool>, until: int)
    requires until == from + 4 && from <= |line| && until >= 0
    requires cells == line[if from >= 0 then from else 0..if until <= |line| then until else |line|]
    ensures |cells| == 4 && AllLight(cells) <==> FourLight(line, from)
  {
    if |cells| == 4 {
      assert forall k :: 0 <= k < 4 ==> cells[k] == line[from + k];
      if AllLight(cells) {
        forall k | from <= k < from + 4 ensures !line[k] { assert !cells[k - from]; }
      }
    }
  }

  lemma {:induction false} NoFinderLeft(line: seq<bool>, start: nat)
    requires start <= |line| < start + 7
    ensures FinderScore(line, start) == FinderScore(line, |line|)
    decreases |line| - start
  {
    if start < |line| { NoFinderLeft(line, start + 1); }
  }

  method ScoreAllFinders(modules: seq<seq<bool>>, size: nat) returns (score: nat)
    ensures score == FindersScore(modules, size, size)
  {
    hide FinderScore;
    score := 0;
    for i := 0 to size
      invariant score == FindersScore(modules, size, i)
    {
      var row := ScoreFinders(Row(modules, size, i));
      var column := ScoreFinders(Column(modules, size, i));
      score := score + row + column;
    }
  }

  // ---------- Rule four: the balance of dark and light ----------

  function DarkBefore(modules: seq<seq<bool>>, size: nat, n: nat, k: nat): set<(nat, nat)> {
    set r: nat, c: nat | r < size && c < size && (r < n || (r == n && c < k)) && At(modules, r, c) :: (r, c)
  }

  lemma DarkNext(modules: seq<seq<bool>>, size: nat, n: nat, k: nat)
    requires n < size && k < size
    ensures |DarkBefore(modules, size, n, k + 1)| == |DarkBefore(modules, size, n, k)| + (if At(modules, n, k) then 1 else 0)
  {
    var before, after := DarkBefore(modules, size, n, k), DarkBefore(modules, size, n, k + 1);
    if At(modules, n, k) {
      assert after == before + {(n, k)};
      assert (n, k) !in before;
    } else {
      assert after == before;
    }
  }

  method CountDark(modules: seq<seq<bool>>, size: nat) returns (dark: nat)
    ensures dark == |DarkBefore(modules, size, size, 0)|
  {
    hide At;
    dark := 0;
    assert DarkBefore(modules, size, 0, 0) == {};
    for r := 0 to size
      invariant dark == |DarkBefore(modules, size, r, 0)|
    {
      for c := 0 to size
        invariant dark == |DarkBefore(modules, size, r, c)|
      {
        DarkNext(modules, size, r, c);
        if At(modules, r, c) { dark := dark + 1; }
      }
      assert DarkBefore(modules, size, r, size) == DarkBefore(modules, size, r + 1, 0);
    }
  }

  /** Ten for every full five hundredths of all modules by which the dark ones miss one half. */
  function Imbalance(dark: nat, all: nat): int
    requires all > 0
  {
    var off := if 2 * dark >= all then 2 * dark - all else all - 2 * dark;
    10 * (10 * off / all)
  }

  /** The source's own formula, over reals. */
  function Percentage(dark: nat, all: nat): int
    requires all > 0
  {
    var percent := (dark * 100) as real / all as real;
    var off := if percent >= 50.0 then percent - 50.0 else 50.0 - percent;
    (off / 5.0).Floor * 10
  }

  lemma FloorOfQuotient(a: nat, b: nat)
    requires b > 0
    ensures (a as real / b as real).Floor == a / b
  {
    var q, rest := a / b, a % b;
    assert a == b * q + rest;
    assert a as real / b as real == q as real + rest as real / b as real;
    assert 0.0 <= rest as real / b as real < 1.0;
  }

  lemma PercentageIs(dark: nat, all: nat)
    requires all > 0
    ensures Percentage(dark, all) == Imbalance(dark, all)
  {
    var off := if 2 * dark >= all then 2 * dark - all else all - 2 * dark;
    var d, n, w := dark as real, all as real, off as real;
    var percent := d * 100.0 / n;
    assert (dark * 100) as real == d * 100.0;
    assert percent * n == d * 100.0;
    assert (percent - 50.0) * n == 50.0 * (2.0 * d - n);
    AwayFromHalf(percent, n, 2.0 * d - n, w);
    var away := if percent >= 50.0 then percent - 50.0 else 50.0 - percent;
    assert away / 5.0 == (10.0 * w) / n;
    assert (10 * off) as real == 10.0 * w;
    FloorOfQuotient(10 * off, all);
  }

  lemma AwayFromHalf(percent: real, n: real, excess: real, w: real)
    requires n > 0.0 && (percent - 50.0) * n == 50.0 * excess && w == if excess >= 0.0 then excess else -excess
    ensures percent >= 50.0 <==> excess >= 0.0
    ensures (if percent >= 50.0 then percent - 50.0 else 50.0 - percent) / 5.0 == (10.0 * w) / n
  {
    var away := if percent >= 50.0 then percent - 50.0 else 50.0 - percent;
    if percent >= 50.0 { assert (percent - 50.0) * n >= 0.0; } else { assert (percent - 50.0) * n < 0.0; }
    assert away * n == 50.0 * w;
    assert away == (50.0 * w) / n;
    assert (50.0 * w) / n / 5.0 == (10.0 * w) / n;
  }

  // ---------- The score ----------

  function Score(modules: seq<seq<bool>>, size: nat): int
    requires size > 0
  {
    RunsScore(modules, size, size) + 3 * |BlocksBefore(modules, size, size, 0)| + FindersScore(modules, size, size)
    + Imbalance(|DarkBefore(modules, size, size, 0)|, size * size)
  }

  /** The encoder's `penalty`. */
  method Penalty(modules: seq<seq<bool>>, size: nat) returns (score: int)
    requires size > 0
    ensures score == Score(modules, size)
  {
    hide RunsScore, FindersScore, BlocksBefore, DarkBefore, Imbalance, Percentage;
    var runs := ScoreAllRuns(modules, size);
    var blocks := ScoreBlocks(modules, size);
    var finders := ScoreAllFinders(modules, size);
    var dark := CountDark(modules, size);
    PercentageIs(dark, size * size);
    score := runs + blocks + finders + Percentage(dark, size * size);
  }
}
