/**
 * `average` and `getAverageStreaks` (src/lib/utils.ts:132-176): per company, the mean length
 * of its winning runs and of its losing runs of participating draws.
 */
module AverageStreaks {
  import opened Wrappers
  import opened Results
  import opened Classifier
  import opened Series

  function Sum(xs: seq<nat>): nat
  {
    if xs == [] then 0 else Sum(xs[..|xs| - 1]) + xs[|xs| - 1]
  }

  lemma SumSnoc(xs: seq<nat>, x: nat)
    ensures Sum(xs + [x]) == Sum(xs) + x
  {
    assert (xs + [x])[..|xs|] == xs;
  }

  /**
   * `average`: the arithmetic mean, 0 for an empty list. The value is exact; the rounding to
   * two decimals is not modelled.
   */
  function Average(xs: seq<nat>): (r: real)
    ensures xs == [] ==> r == 0.0
    ensures xs != [] ==> r * |xs| as real == Sum(xs) as real
  {
    if |xs| > 0 then Sum(xs) as real / |xs| as real else 0.0
  }

  /** Every element between lo and hi bounds the sum between |xs|*lo and |xs|*hi. */
  lemma {:induction false} SumWithin(xs: seq<nat>, lo: nat, hi: nat)
    requires forall k :: 0 <= k < |xs| ==> lo <= xs[k] <= hi
    ensures |xs| * lo <= Sum(xs) <= |xs| * hi
  {
    if xs != [] {
      var xs', n := xs[..|xs| - 1], |xs| - 1;
      SumWithin(xs', lo, hi);
      assert Sum(xs) == Sum(xs') + xs[n];
      MulSucc(n, lo);
      MulSucc(n, hi);
    }
  }

  lemma MulSucc(n: nat, x: nat)
    ensures (n + 1) * x == n * x + x
  {
  }

  /** Dividing by a positive count keeps the bounds: from lo*n <= s <= hi*n to lo <= s/n <= hi. */
  lemma QuotientWithin(r: real, n: real, s: real, lo: real, hi: real)
    requires n > 0.0 && r * n == s && lo * n <= s <= hi * n
    ensures lo <= r <= hi
  {
    assert (r - lo) * n >= 0.0;
    assert (hi - r) * n >= 0.0;
  }

  lemma ProductAsReal(a: nat, b: nat)
    ensures (a * b) as real == b as real * a as real
  {
  }

  lemma MeanWithin(n: nat, s: nat, lo: nat, hi: nat, r: real)
    requires n > 0 && r * n as real == s as real && n * lo <= s <= n * hi
    ensures lo as real <= r <= hi as real
  {
    ProductAsReal(n, lo);
    ProductAsReal(n, hi);
    QuotientWithin(r, n as real, s as real, lo as real, hi as real);
  }

  /** The mean of values between lo and hi lies between lo and hi. */
  lemma AverageWithin(xs: seq<nat>, lo: nat, hi: nat)
    requires xs != [] && forall k :: 0 <= k < |xs| ==> lo <= xs[k] <= hi
    ensures lo as real <= Average(xs) <= hi as real
  {
    var n, total, r := |xs|, Sum(xs), Average(xs);
    SumWithin(xs, lo, hi);
    assert r * n as real == total as real;
    MeanWithin(n, total, lo, hi, r);
  }

  /** The lengths of the runs of one classification, in order: `winStreaks` or `loseStreaks`. */
  function Lengths(rs: seq<Run>, win: bool): (ls: seq<nat>)
    ensures |ls| <= |rs|
  {
    if rs == [] then []
    else Lengths(rs[..|rs| - 1], win) + (if rs[|rs| - 1].win == win then [|rs[|rs| - 1].draws|] else [])
  }

  lemma LengthsSnoc(rs: seq<Run>, r: Run, win: bool)
    ensures Lengths(rs + [r], win) == Lengths(rs, win) + (if r.win == win then [|r.draws|] else [])
  {
    assert (rs + [r])[..|rs|] == rs;
  }

  datatype AverageStreakResult = AverageStreakResult(company: Company, averageWin: real, averageLose: real)

  /** What `getAverageStreaks` reports for one company. */
  function AverageFor(sorted: seq<Row>, c: Company): AverageStreakResult
  {
    var rs := RunsOf(DrawsOf(sorted, c));
    AverageStreakResult(c, Average(Lengths(rs, true)), Average(Lengths(rs, false)))
  }

  /**
   * The scan's variables after the draws ds seen so far: the current run's type and length,
   * and the lengths of the win and lose runs already closed.
   */
  ghost predicate AverageState(ds: seq<Draw>, currentType: Option<bool>, currentLength: nat,
    winStreaks: seq<nat>, loseStreaks: seq<nat>)
  {
    var rs := RunsOf(ds);
    && (rs == [] ==> currentType.None?)
    && (rs != [] ==> currentType == Some(rs[|rs| - 1].win) && currentLength == |rs[|rs| - 1].draws|)
    && winStreaks == Lengths(Closed(rs), true)
    && loseStreaks == Lengths(Closed(rs), false)
  }

  /** A draw of the current run's type lengthens the current run. */
  lemma AverageExtend(ds: seq<Draw>, d: Draw, currentLength: nat, winStreaks: seq<nat>, loseStreaks: seq<nat>)
    requires AverageState(ds, Some(d.win), currentLength, winStreaks, loseStreaks)
    ensures AverageState(ds + [d], Some(d.win), currentLength + 1, winStreaks, loseStreaks)
  {
    RunsOfStep(ds, d);
  }

  /** A draw of the other type starts a run of one; the closed runs become all runs before it. */
  lemma AverageSwitch(ds: seq<Draw>, d: Draw, currentType: Option<bool>, currentLength: nat,
    winStreaks: seq<nat>, loseStreaks: seq<nat>, newWin: seq<nat>, newLose: seq<nat>)
    requires currentType != Some(d.win)
    requires AverageState(ds, currentType, currentLength, winStreaks, loseStreaks)
    requires newWin == Lengths(RunsOf(ds), true)
    requires newLose == Lengths(RunsOf(ds), false)
    ensures AverageState(ds + [d], Some(d.win), 1, newWin, newLose)
  {
    RunsOfStep(ds, d);
  }

  /** Pushing the current run's length onto the list of its type closes it. */
  lemma AverageClose(ds: seq<Draw>, currentType: Option<bool>, currentLength: nat,
    winStreaks: seq<nat>, loseStreaks: seq<nat>)
    requires AverageState(ds, currentType, currentLength, winStreaks, loseStreaks)
    ensures var rs := RunsOf(ds);
      && Lengths(rs, true) == (if currentType == Some(true) then winStreaks + [currentLength] else winStreaks)
      && Lengths(rs, false) == (if currentType == Some(false) then loseStreaks + [currentLength] else loseStreaks)
  {
    var rs := RunsOf(ds);
    if rs != [] {
      var rs', r := Closed(rs), rs[|rs| - 1];
      assert rs == rs' + [r];
      LengthsSnoc(rs', r, true);
      LengthsSnoc(rs', r, false);
    }
  }

  /**
   * The block run on a type change and once more after the last row: the current run's
   * length goes onto `winStreaks` or `loseStreaks`, by its type.
   */
  method PushFinished(rows: seq<Row>, c: Company, currentType: Option<bool>, currentLength: nat,
    winStreaks: seq<nat>, loseStreaks: seq<nat>) returns (newWin: seq<nat>, newLose: seq<nat>)
    requires AverageState(DrawsOf(rows, c), currentType, currentLength, winStreaks, loseStreaks)
    ensures newWin == Lengths(RunsOf(DrawsOf(rows, c)), true)
    ensures newLose == Lengths(RunsOf(DrawsOf(rows, c)), false)
  {
    AverageClose(DrawsOf(rows, c), currentType, currentLength, winStreaks, loseStreaks);
    newWin, newLose := winStreaks, loseStreaks;
    if currentType == Some(true) {
      newWin := newWin + [currentLength];
    }
    if currentType == Some(false) {
      newLose := newLose + [currentLength];
    }
  }

  /**
   * The scan of one company in `getAverageStreaks`: a type change pushes the finished run's
   * length onto `winStreaks` or `loseStreaks`, and so does the end of the rows.
   */
  method ScanLengths(sorted: seq<Row>, c: Company) returns (winStreaks: seq<nat>, loseStreaks: seq<nat>)
    ensures winStreaks == Lengths(RunsOf(DrawsOf(sorted, c)), true)
    ensures loseStreaks == Lengths(RunsOf(DrawsOf(sorted, c)), false)
  {
    var currentType: Option<bool> := None;
    var currentLength: nat := 0;
    winStreaks, loseStreaks := [], [];
    ghost var ds: seq<Draw> := [];
    for i := 0 to |sorted|
      invariant ds == DrawsOf(sorted[..i], c)
      invariant AverageState(ds, currentType, currentLength, winStreaks, loseStreaks)
    {
      var row := sorted[i];
      if !Participates(row, c) {
        DrawsOfSkip(sorted, i, c);
        continue;
      }
      ghost var d := DrawAt(row, c);
      DrawsOfSnoc(sorted, i, c);
      var isWin := HasDuplicateInLastThreeDigits(ValueOf(row, c));
      assert d == Draw(row.drawDate, isWin);
      if currentType != Some(isWin) {
        var newWin, newLose := PushFinished(sorted[..i], c, currentType, currentLength, winStreaks, loseStreaks);
        AverageSwitch(ds, d, currentType, currentLength, winStreaks, loseStreaks, newWin, newLose);
        winStreaks, loseStreaks := newWin, newLose;
        currentType := Some(isWin);
        currentLength := 1;
      } else {
        AverageExtend(ds, d, currentLength, winStreaks, loseStreaks);
        currentLength := currentLength + 1;
      }
      ds := ds + [d];
    }
    assert sorted[..|sorted|] == sorted;
    winStreaks, loseStreaks := PushFinished(sorted, c, currentType, currentLength, winStreaks, loseStreaks);
  }

  /** The results for the companies cs, in the order of cs. */
  function AverageAll(sorted: seq<Row>, cs: seq<Company>): (results: seq<AverageStreakResult>)
    ensures |results| == |cs|
  {
    if cs == [] then [] else AverageAll(sorted, cs[..|cs| - 1]) + [AverageFor(sorted, cs[|cs| - 1])]
  }

  lemma AverageAllSnoc(sorted: seq<Row>, cs: seq<Company>, k: nat)
    requires k < |cs|
    ensures AverageAll(sorted, cs[..k + 1]) == AverageAll(sorted, cs[..k]) + [AverageFor(sorted, cs[k])]
  {
    assert cs[..k + 1][..k] == cs[..k];
  }

  /** Result k is the result for company k. */
  lemma {:induction false} AverageAllAt(sorted: seq<Row>, cs: seq<Company>)
    ensures forall k :: 0 <= k < |cs| ==> AverageAll(sorted, cs)[k] == AverageFor(sorted, cs[k])
  {
    if cs != [] {
      var cs' := cs[..|cs| - 1];
      AverageAllAt(sorted, cs');
      assert forall k :: 0 <= k < |cs'| ==> cs[k] == cs'[k];
    }
  }

  /** `getAverageStreaks`: one result per company, in the COMPANIES order. */
  method GetAverageStreaks(data: seq<Row>) returns (results: seq<AverageStreakResult>)
    ensures results == AverageAll(SortByDate(data), Companies)
  {
    var sorted := SortByDate(data);
    results := [];
    for ci := 0 to |Companies|
      invariant results == AverageAll(sorted, Companies[..ci])
    {
      var c := Companies[ci];
      var winStreaks, loseStreaks := ScanLengths(sorted, c);
      AverageAllSnoc(sorted, Companies, ci);
      results := results + [AverageStreakResult(c, Average(winStreaks), Average(loseStreaks))];
    }
    assert Companies[..|Companies|] == Companies;
  }

  // ---------------------------------------------------------------- properties of the run lengths

  /** Every collected run length is at least one. */
  lemma {:induction false} LengthsArePositive(rs: seq<Run>, win: bool)
    requires forall k :: 0 <= k < |rs| ==> |rs[k].draws| >= 1
    ensures forall k :: 0 <= k < |Lengths(rs, win)| ==> Lengths(rs, win)[k] >= 1
  {
    if rs != [] {
      var rs' := rs[..|rs| - 1];
      LengthsArePositive(rs', win);
      LengthsSnoc(rs', rs[|rs| - 1], win);
      assert rs == rs' + [rs[|rs| - 1]];
    }
  }

  /** The win lengths and the lose lengths together add up to the number of draws in the runs. */
  lemma {:induction false} LengthsCoverFlatten(rs: seq<Run>)
    ensures Sum(Lengths(rs, true)) + Sum(Lengths(rs, false)) == |Flatten(rs)|
  {
    if rs != [] {
      var rs', r := rs[..|rs| - 1], rs[|rs| - 1];
      assert rs == rs' + [r];
      LengthsCoverFlatten(rs');
      LengthsSnoc(rs', r, true);
      LengthsSnoc(rs', r, false);
      FlattenSnoc(rs', r);
      if r.win {
        SumSnoc(Lengths(rs', true), |r.draws|);
        assert Lengths(rs, false) == Lengths(rs', false);
      } else {
        SumSnoc(Lengths(rs', false), |r.draws|);
        assert Lengths(rs, true) == Lengths(rs', true);
      }
    }
  }

  /**
   * Alternating runs: the number of win runs and of lose runs differ by at most one, and the
   * type of the last run is the one that may have the extra run.
   */
  lemma {:induction false} AlternatingCounts(rs: seq<Run>)
    requires forall k :: 0 <= k < |rs| - 1 ==> rs[k].win != rs[k + 1].win
    ensures var w, l := |Lengths(rs, true)|, |Lengths(rs, false)|;
      w == l || (rs != [] && rs[|rs| - 1].win && w == l + 1) || (rs != [] && !rs[|rs| - 1].win && l == w + 1)
  {
    if rs != [] {
      var rs', r := rs[..|rs| - 1], rs[|rs| - 1];
      assert rs == rs' + [r];
      AlternatingCounts(rs');
      LengthsSnoc(rs', r, true);
      LengthsSnoc(rs', r, false);
      if rs' != [] {
        assert rs'[|rs'| - 1] == rs[|rs| - 2];
        assert rs[|rs| - 2].win != r.win;
      }
    }
  }

  /**
   * The run lengths of a draw sequence: each is at least one, the win and lose lengths add up
   * to the number of draws, and the counts of win and lose runs differ by at most one.
   */
  lemma RunLengthsPartitionDraws(ds: seq<Draw>)
    ensures var ws, ls := Lengths(RunsOf(ds), true), Lengths(RunsOf(ds), false);
      && (forall k :: 0 <= k < |ws| ==> ws[k] >= 1)
      && (forall k :: 0 <= k < |ls| ==> ls[k] >= 1)
      && Sum(ws) + Sum(ls) == |ds|
      && (|ws| == |ls| || |ws| == |ls| + 1 || |ls| == |ws| + 1)
  {
    var rs := RunsOf(ds);
    RunsOfIsPartition(ds);
    assert forall k :: 0 <= k < |rs| ==> |rs[k].draws| >= 1;
    LengthsArePositive(rs, true);
    LengthsArePositive(rs, false);
    assert Flatten(rs) == ds;
    LengthsCoverFlatten(rs);
    assert forall k :: 0 <= k < |rs| - 1 ==> rs[k].win != rs[k + 1].win;
    AlternatingCounts(rs);
  }

  /** The mean of lengths of at least one summing to at most n is 0 when there are none, else in [1, n]. */
  lemma AverageOfLengths(xs: seq<nat>, n: nat)
    requires forall k :: 0 <= k < |xs| ==> xs[k] >= 1
    requires Sum(xs) <= n
    ensures xs == [] ==> Average(xs) == 0.0
    ensures xs != [] ==> 1.0 <= Average(xs) <= n as real
  {
    if xs != [] {
      ElementAtMostSum(xs);
      AverageWithin(xs, 1, n);
    }
  }

  /**
   * For each company, each average is 0 when there is no run of that type and otherwise lies
   * between 1 and the company's number of participating draws.
   */
  lemma AverageForBounds(sorted: seq<Row>, c: Company)
    ensures var ds := DrawsOf(sorted, c);
      var rs := RunsOf(ds);
      var a := AverageFor(sorted, c);
      && a.company == c
      && (Lengths(rs, true) == [] ==> a.averageWin == 0.0)
      && (Lengths(rs, true) != [] ==> 1.0 <= a.averageWin <= |ds| as real)
      && (Lengths(rs, false) == [] ==> a.averageLose == 0.0)
      && (Lengths(rs, false) != [] ==> 1.0 <= a.averageLose <= |ds| as real)
  {
    var ds := DrawsOf(sorted, c);
    var rs := RunsOf(ds);
    var ws, ls := Lengths(rs, true), Lengths(rs, false);
    RunLengthsPartitionDraws(ds);
    AverageOfLengths(ws, |ds|);
    AverageOfLengths(ls, |ds|);
    assert AverageFor(sorted, c) == AverageStreakResult(c, Average(ws), Average(ls));
  }

  lemma {:induction false} ElementAtMostSum(xs: seq<nat>)
    ensures forall k :: 0 <= k < |xs| ==> xs[k] <= Sum(xs)
  {
    if xs != [] {
      ElementAtMostSum(xs[..|xs| - 1]);
    }
  }
}
