/**
 * `getLongestStreaks` (src/lib/utils.ts:52-130): per company, in the COMPANIES order, the
 * longest winning and the longest losing run of participating draws, with its first and
 * last participating dates.
 */
module LongestStreaks {
  import opened Wrappers
  import opened Results
  import opened Classifier
  import opened Series

  datatype StreakType = Win | Lose

  /** One reported streak. */
  datatype LongestStreakResult = LongestStreakResult(
    company: Company, streakType: StreakType, length: nat, startDate: string, endDate: string)

  function TypeOf(win: bool): StreakType
  {
    if win then Win else Lose
  }

  /**
   * A run the scan records as a streak of the given classification: besides the type, its
   * start date must be truthy, so a run starting on an empty draw date is never reported.
   */
  predicate Eligible(r: Run, win: bool)
  {
    r.win == win && r.draws != [] && r.draws[0].date != ""
  }

  /**
   * The streak the scan keeps of one classification: runs are considered in order and one
   * replaces the kept streak only when it is strictly longer.
   */
  function Longest(rs: seq<Run>, win: bool): (best: Option<Run>)
    ensures best.Some? ==> Eligible(best.value, win) && best.value in rs
  {
    if rs == [] then None
    else
      var kept := Longest(rs[..|rs| - 1], win);
      var r := rs[|rs| - 1];
      if Eligible(r, win) && (kept.None? || |r.draws| > |kept.value.draws|) then Some(r) else kept
  }

  /** Run k is eligible, at least as long as every eligible run, and longer than every earlier one. */
  ghost predicate FirstLongest(rs: seq<Run>, win: bool, k: int)
  {
    && 0 <= k < |rs|
    && Eligible(rs[k], win)
    && (forall j :: 0 <= j < |rs| && Eligible(rs[j], win) ==> |rs[j].draws| <= |rs[k].draws|)
    && (forall j :: 0 <= j < k && Eligible(rs[j], win) ==> |rs[j].draws| < |rs[k].draws|)
  }

  /** The kept streak is nothing exactly when no run is eligible. */
  lemma {:induction false} LongestNoneIffNoneEligible(rs: seq<Run>, win: bool)
    ensures Longest(rs, win).None? <==> forall k :: 0 <= k < |rs| ==> !Eligible(rs[k], win)
  {
    if rs != [] {
      var rs' := rs[..|rs| - 1];
      LongestNoneIffNoneEligible(rs', win);
      assert forall j :: 0 <= j < |rs'| ==> rs[j] == rs'[j];
    }
  }

  /** A last run longer than every eligible run before it is the first longest. */
  lemma FirstLongestSnocNew(rs: seq<Run>, r: Run, win: bool)
    requires Eligible(r, win)
    requires forall j :: 0 <= j < |rs| && Eligible(rs[j], win) ==> |rs[j].draws| < |r.draws|
    ensures FirstLongest(rs + [r], win, |rs|)
  {
  }

  /** A last run that is not eligible or not strictly longer leaves the first longest in place. */
  lemma FirstLongestSnocKeep(rs: seq<Run>, r: Run, win: bool, k: int)
    requires FirstLongest(rs, win, k)
    requires !(Eligible(r, win) && |r.draws| > |rs[k].draws|)
    ensures FirstLongest(rs + [r], win, k)
  {
  }

  /** A kept streak is the first longest eligible run. */
  lemma {:induction false} LongestIsFirstMaximum(rs: seq<Run>, win: bool)
    requires Longest(rs, win).Some?
    ensures exists k :: FirstLongest(rs, win, k) && rs[k] == Longest(rs, win).value
  {
    var n := |rs|;
    var rs', r := rs[..n - 1], rs[n - 1];
    assert rs == rs' + [r];
    var kept := Longest(rs', win);
    if Eligible(r, win) && (kept.None? || |r.draws| > |kept.value.draws|) {
      if kept.Some? {
        LongestIsFirstMaximum(rs', win);
        var k :| FirstLongest(rs', win, k) && rs'[k] == kept.value;
      } else {
        LongestNoneIffNoneEligible(rs', win);
      }
      FirstLongestSnocNew(rs', r, win);
      assert FirstLongest(rs, win, n - 1) && rs[n - 1] == Longest(rs, win).value;
    } else {
      LongestIsFirstMaximum(rs', win);
      var k :| FirstLongest(rs', win, k) && rs'[k] == kept.value;
      FirstLongestSnocKeep(rs', r, win, k);
      assert FirstLongest(rs, win, k) && rs[k] == Longest(rs, win).value;
    }
  }

  /** The record the scan builds for a run: its type, length, first date and last date. */
  function Report(c: Company, best: Option<Run>): Option<LongestStreakResult>
  {
    match best
    case None => None
    case Some(r) =>
      if r.draws == [] then None
      else Some(LongestStreakResult(c, TypeOf(r.win), |r.draws|, r.draws[0].date, r.draws[|r.draws| - 1].date))
  }

  lemma ReportOfRun(c: Company, r: Run)
    requires r.draws != []
    ensures Report(c, Some(r)) ==
      Some(LongestStreakResult(c, TypeOf(r.win), |r.draws|, r.draws[0].date, r.draws[|r.draws| - 1].date))
  {
  }

  function Entry(o: Option<LongestStreakResult>): seq<LongestStreakResult>
  {
    if o.Some? then [o.value] else []
  }

  /** What one company contributes: its longest win streak, then its longest lose streak. */
  function LongestFor(sorted: seq<Row>, c: Company): seq<LongestStreakResult>
  {
    var rs := RunsOf(DrawsOf(sorted, c));
    Entry(Report(c, Longest(rs, true))) + Entry(Report(c, Longest(rs, false)))
  }

  /** The contributions of the companies cs, in the order of cs. */
  function LongestAll(sorted: seq<Row>, cs: seq<Company>): seq<LongestStreakResult>
  {
    if cs == [] then [] else LongestAll(sorted, cs[..|cs| - 1]) + LongestFor(sorted, cs[|cs| - 1])
  }

  /** Pushing the present entries one by one appends their Entry sequences. */
  lemma PushEntries(results: seq<LongestStreakResult>, w: Option<LongestStreakResult>, l: Option<LongestStreakResult>)
    ensures (if l.Some? then (if w.Some? then results + [w.value] else results) + [l.value]
             else (if w.Some? then results + [w.value] else results)) == results + (Entry(w) + Entry(l))
  {
  }

  lemma LongestAllSnoc(sorted: seq<Row>, cs: seq<Company>, k: nat)
    requires k < |cs|
    ensures LongestAll(sorted, cs[..k + 1]) == LongestAll(sorted, cs[..k]) + LongestFor(sorted, cs[k])
  {
    assert cs[..k + 1][..k] == cs[..k];
  }

  /**
   * `sorted.slice(0, i).reverse().find((r) => r[company])`: the last row in which the
   * company participates, if any.
   */
  function LastParticipating(rows: seq<Row>, c: Company): (r: Option<Row>)
    ensures r.None? <==> forall k :: 0 <= k < |rows| ==> !Participates(rows[k], c)
    ensures r.Some? ==> r.value in rows && Participates(r.value, c)
  {
    if rows == [] then None
    else if Participates(rows[|rows| - 1], c) then Some(rows[|rows| - 1])
    else LastParticipating(rows[..|rows| - 1], c)
  }

  /** The backward search finds the date of the company's last draw. */
  lemma {:induction false} LastParticipatingIsLastDraw(rows: seq<Row>, c: Company)
    ensures LastParticipating(rows, c).None? <==> DrawsOf(rows, c) == []
    ensures LastParticipating(rows, c).Some? ==>
      LastParticipating(rows, c).value.drawDate == DrawsOf(rows, c)[|DrawsOf(rows, c)| - 1].date
  {
    if rows != [] {
      var n := |rows| - 1;
      assert rows[..n + 1] == rows;
      if Participates(rows[n], c) {
        DrawsOfSnoc(rows, n, c);
      } else {
        LastParticipatingIsLastDraw(rows[..n], c);
        DrawsOfSkip(rows, n, c);
      }
    }
  }

  /** The last run of the scan ends with the last draw. */
  lemma RunsOfEndsWithLastDraw(ds: seq<Draw>)
    requires ds != []
    ensures var last := RunsOf(ds)[|RunsOf(ds)| - 1];
      last.draws != [] && last.draws[|last.draws| - 1] == ds[|ds| - 1]
  {
    var ds', d := ds[..|ds| - 1], ds[|ds| - 1];
    assert ds == ds' + [d];
    RunsOfSnoc(ds', d);
  }

  /**
   * The scan's variables after the draws ds seen so far: the current run's type, length and
   * start date, and the longest win and lose streaks among the runs already closed.
   */
  ghost predicate ScanState(ds: seq<Draw>, c: Company, currentType: Option<bool>, currentLength: nat,
    currentStart: Option<string>, maxWin: Option<LongestStreakResult>, maxLose: Option<LongestStreakResult>)
  {
    var rs := RunsOf(ds);
    && (rs == [] ==> currentType.None? && currentStart.None?)
    && (rs != [] ==>
          && currentType == Some(rs[|rs| - 1].win)
          && currentLength == |rs[|rs| - 1].draws|
          && rs[|rs| - 1].draws != []
          && currentStart == Some(rs[|rs| - 1].draws[0].date))
    && maxWin == Report(c, Longest(Closed(rs), true))
    && maxLose == Report(c, Longest(Closed(rs), false))
  }

  /** A draw of the current run's type lengthens the current run. */
  lemma ScanExtend(ds: seq<Draw>, d: Draw, c: Company, currentLength: nat, currentStart: Option<string>,
    maxWin: Option<LongestStreakResult>, maxLose: Option<LongestStreakResult>)
    requires ScanState(ds, c, Some(d.win), currentLength, currentStart, maxWin, maxLose)
    ensures ScanState(ds + [d], c, Some(d.win), currentLength + 1, currentStart, maxWin, maxLose)
  {
    RunsOfStep(ds, d);
  }

  /**
   * A draw of another type starts a new run of length one at its date; the runs closed so
   * far become all runs before it.
   */
  lemma ScanSwitch(ds: seq<Draw>, d: Draw, c: Company, currentType: Option<bool>, currentLength: nat,
    currentStart: Option<string>, maxWin: Option<LongestStreakResult>, maxLose: Option<LongestStreakResult>,
    newWin: Option<LongestStreakResult>, newLose: Option<LongestStreakResult>)
    requires currentType != Some(d.win)
    requires ScanState(ds, c, currentType, currentLength, currentStart, maxWin, maxLose)
    requires newWin == Report(c, Longest(RunsOf(ds), true))
    requires newLose == Report(c, Longest(RunsOf(ds), false))
    ensures ScanState(ds + [d], c, Some(d.win), 1, Some(d.date), newWin, newLose)
  {
    RunsOfStep(ds, d);
  }

  /** The kept streak of all runs: the last run replaces the one kept from the runs before it when strictly longer. */
  lemma LongestLast(rs: seq<Run>, win: bool)
    requires rs != []
    ensures var kept, r := Longest(Closed(rs), win), rs[|rs| - 1];
      Longest(rs, win) == if Eligible(r, win) && (kept.None? || |r.draws| > |kept.value.draws|) then Some(r) else kept
  {
  }

  /** The record of the kept streak after one more run, in terms of the record before it. */
  lemma ReportStep(c: Company, kept: Option<Run>, r: Run, win: bool)
    requires kept.Some? ==> Eligible(kept.value, win)
    requires r.draws != []
    ensures var m := Report(c, kept);
      Report(c, if Eligible(r, win) && (kept.None? || |r.draws| > |kept.value.draws|) then Some(r) else kept) ==
        if r.win == win && r.draws[0].date != "" && (m.None? || |r.draws| > m.value.length)
        then Some(LongestStreakResult(c, TypeOf(r.win), |r.draws|, r.draws[0].date, r.draws[|r.draws| - 1].date))
        else m
  {
  }

  /**
   * Closing the last run of rs, of length `length` from `start` to `endDate`: the record kept
   * for the classification w becomes the last run's when it is eligible and strictly longer.
   */
  lemma CloseLastRun(c: Company, rs: seq<Run>, length: nat, start: string, endDate: string,
    m: Option<LongestStreakResult>, win: bool, w: bool)
    requires rs != [] && rs[|rs| - 1].win == win && |rs[|rs| - 1].draws| == length
    requires rs[|rs| - 1].draws != [] && rs[|rs| - 1].draws[0].date == start
    requires rs[|rs| - 1].draws[length - 1].date == endDate
    requires m == Report(c, Longest(Closed(rs), w))
    ensures Report(c, Longest(rs, w)) ==
      if win == w && start != "" && (m.None? || length > m.value.length)
      then Some(LongestStreakResult(c, TypeOf(win), length, start, endDate)) else m
  {
    LongestLast(rs, w);
    ReportStep(c, Longest(Closed(rs), w), rs[|rs| - 1], w);
  }

  /**
   * Closing the current run: the kept streaks of the closed runs become those of all runs.
   * With a current run, it is recorded (`currentType && currentStart`) with the date of the
   * last draw as its end, and replaces a kept streak only when strictly longer.
   */
  lemma CloseRun(ds: seq<Draw>, c: Company, currentLength: nat, currentStart: Option<string>,
    maxWin: Option<LongestStreakResult>, maxLose: Option<LongestStreakResult>, win: bool)
    requires ScanState(ds, c, Some(win), currentLength, currentStart, maxWin, maxLose)
    ensures currentStart.Some? && ds != []
    ensures var rs := RunsOf(ds);
      var streak := LongestStreakResult(c, TypeOf(win), currentLength, currentStart.value, ds[|ds| - 1].date);
      var eligible := currentStart.value != "";
      && Report(c, Longest(rs, true)) ==
           (if win && eligible && (maxWin.None? || currentLength > maxWin.value.length) then Some(streak) else maxWin)
      && Report(c, Longest(rs, false)) ==
           (if !win && eligible && (maxLose.None? || currentLength > maxLose.value.length) then Some(streak) else maxLose)
  {
    var rs := RunsOf(ds);
    RunsOfEndsWithLastDraw(ds);
    CloseLastRun(c, rs, currentLength, currentStart.value, ds[|ds| - 1].date, maxWin, win, true);
    CloseLastRun(c, rs, currentLength, currentStart.value, ds[|ds| - 1].date, maxLose, win, false);
  }

  /** Before any draw there is no current run and nothing is kept. */
  lemma NothingToClose(ds: seq<Draw>, c: Company, currentLength: nat, currentStart: Option<string>,
    maxWin: Option<LongestStreakResult>, maxLose: Option<LongestStreakResult>)
    requires ScanState(ds, c, None, currentLength, currentStart, maxWin, maxLose)
    ensures maxWin == Report(c, Longest(RunsOf(ds), true))
    ensures maxLose == Report(c, Longest(RunsOf(ds), false))
  {
  }

  /**
   * The block run when the type changes and once more after the last row: if there is a
   * current run with a truthy start, it is recorded with the date of the last participating
   * row among `rows` as its end, and it replaces the kept streak of its type when strictly longer.
   */
  method CloseStreak(rows: seq<Row>, c: Company, currentType: Option<bool>, currentLength: nat,
    currentStart: Option<string>, maxWin: Option<LongestStreakResult>, maxLose: Option<LongestStreakResult>)
    returns (newWin: Option<LongestStreakResult>, newLose: Option<LongestStreakResult>)
    requires ScanState(DrawsOf(rows, c), c, currentType, currentLength, currentStart, maxWin, maxLose)
    ensures newWin == Report(c, Longest(RunsOf(DrawsOf(rows, c)), true))
    ensures newLose == Report(c, Longest(RunsOf(DrawsOf(rows, c)), false))
  {
    ghost var ds := DrawsOf(rows, c);
    newWin, newLose := maxWin, maxLose;
    if currentType.None? {
      NothingToClose(ds, c, currentLength, currentStart, maxWin, maxLose);
      return;
    }
    var win := currentType.value;
    var last := LastParticipating(rows, c);
    LastParticipatingIsLastDraw(rows, c);
    CloseRun(ds, c, currentLength, currentStart, maxWin, maxLose, win);
    var start := currentStart.value;
    if start != "" {
      var endDate := match last
        case Some(r) => r.drawDate
        case None => start;
      assert endDate == ds[|ds| - 1].date;
      var streak := LongestStreakResult(c, TypeOf(win), currentLength, start, endDate);
      if win {
        if newWin.None? || streak.length > newWin.value.length {
          newWin := Some(streak);
        }
      } else {
        if newLose.None? || streak.length > newLose.value.length {
          newLose := Some(streak);
        }
      }
    }
  }

  /**
   * The scan of one company: `currentType`, `currentLength` and `currentStart` follow the
   * current run, and `maxWin`/`maxLose` keep the first longest win and lose streak.
   */
  method ScanCompany(sorted: seq<Row>, c: Company)
    returns (maxWin: Option<LongestStreakResult>, maxLose: Option<LongestStreakResult>)
    ensures maxWin == Report(c, Longest(RunsOf(DrawsOf(sorted, c)), true))
    ensures maxLose == Report(c, Longest(RunsOf(DrawsOf(sorted, c)), false))
  {
    var currentType: Option<bool> := None;
    var currentLength: nat := 0;
    var currentStart: Option<string> := None;
    maxWin, maxLose := None, None;
    ghost var ds: seq<Draw> := [];
    for i := 0 to |sorted|
      invariant ds == DrawsOf(sorted[..i], c)
      invariant ScanState(ds, c, currentType, currentLength, currentStart, maxWin, maxLose)
    {
      var row := sorted[i];
      if !Participates(row, c) {
        DrawsOfSkip(sorted, i, c);
        continue;
      }
      ghost var d := DrawAt(row, c);
      DrawsOfSnoc(sorted, i, c);
      var isWin := HasDuplicateInLastThreeDigits(ValueOf(row, c));
      assert d == Draw(row.drawDate, isWin);
      if currentType != Some(isWin) {
        var newWin, newLose := CloseStreak(sorted[..i], c, currentType, currentLength, currentStart, maxWin, maxLose);
        ScanSwitch(ds, d, c, currentType, currentLength, currentStart, maxWin, maxLose, newWin, newLose);
        maxWin, maxLose := newWin, newLose;
        currentType := Some(isWin);
        currentLength := 1;
        currentStart := Some(row.drawDate);
      } else {
        ScanExtend(ds, d, c, currentLength, currentStart, maxWin, maxLose);
        currentLength := currentLength + 1;
      }
      ds := ds + [d];
    }
    assert sorted[..|sorted|] == sorted;
    maxWin, maxLose := CloseStreak(sorted, c, currentType, currentLength, currentStart, maxWin, maxLose);
  }

  /** `getLongestStreaks`: each company's contribution, in the COMPANIES order. */
  method GetLongestStreaks(data: seq<Row>) returns (results: seq<LongestStreakResult>)
    ensures results == LongestAll(SortByDate(data), Companies)
  {
    var sorted := SortByDate(data);
    results := [];
    for ci := 0 to |Companies|
      invariant results == LongestAll(sorted, Companies[..ci])
    {
      var c := Companies[ci];
      var maxWin, maxLose := ScanCompany(sorted, c);
      LongestAllSnoc(sorted, Companies, ci);
      PushEntries(results, maxWin, maxLose);
      if maxWin.Some? {
        results := results + [maxWin.value];
      }
      if maxLose.Some? {
        results := results + [maxLose.value];
      }
    }
    assert Companies[..|Companies|] == Companies;
  }

  /**
   * A company contributes at most one win and one lose entry, win first, all about itself,
   * and nothing at all when it never participated.
   */
  lemma LongestForShape(sorted: seq<Row>, c: Company)
    ensures var es := LongestFor(sorted, c);
      && |es| <= 2
      && (forall k :: 0 <= k < |es| ==> es[k].company == c && es[k].length >= 1)
      && (|es| == 2 ==> es[0].streakType == Win && es[1].streakType == Lose)
      && (DrawsOf(sorted, c) == [] ==> es == [])
  {
    EntriesShape(c, RunsOf(DrawsOf(sorted, c)));
  }

  /** The shape of LongestForShape, for any runs. */
  lemma EntriesShape(c: Company, rs: seq<Run>)
    ensures var es := Entry(Report(c, Longest(rs, true))) + Entry(Report(c, Longest(rs, false)));
      && |es| <= 2
      && (forall k :: 0 <= k < |es| ==> es[k].company == c && es[k].length >= 1)
      && (|es| == 2 ==> es[0].streakType == Win && es[1].streakType == Lose)
      && (rs == [] ==> es == [])
  {
    var w, l := Entry(Report(c, Longest(rs, true))), Entry(Report(c, Longest(rs, false)));
    EntryShape(c, Longest(rs, true), true);
    EntryShape(c, Longest(rs, false), false);
    var es := w + l;
    assert forall k :: 0 <= k < |es| ==> if k < |w| then es[k] == w[k] else es[k] == l[k - |w|];
  }

  /** The entry for a kept streak: at most one record, about c, of positive length and of the streak's type. */
  lemma EntryShape(c: Company, best: Option<Run>, win: bool)
    requires best.Some? ==> Eligible(best.value, win)
    ensures var e := Entry(Report(c, best));
      && |e| <= 1 && (best.None? ==> e == [])
      && (forall k :: 0 <= k < |e| ==> e[k].company == c && e[k].length >= 1 && e[k].streakType == TypeOf(win))
  {
  }

  /** No streak of a classification is reported exactly when no run of it is eligible. */
  lemma ReportNoneIffNoneEligible(c: Company, rs: seq<Run>, win: bool)
    ensures Report(c, Longest(rs, win)).None? <==> forall k :: 0 <= k < |rs| ==> !Eligible(rs[k], win)
  {
    LongestNoneIffNoneEligible(rs, win);
  }

  /**
   * A reported win (lose) streak among runs rs is the first eligible run of maximum length,
   * and its dates are that run's first and last draw dates.
   */
  lemma ReportIsFirstLongestRun(c: Company, rs: seq<Run>, win: bool)
    requires Report(c, Longest(rs, win)).Some?
    ensures exists k ::
      && FirstLongest(rs, win, k)
      && Report(c, Longest(rs, win)).value ==
        LongestStreakResult(c, TypeOf(win), |rs[k].draws|, rs[k].draws[0].date, rs[k].draws[|rs[k].draws| - 1].date)
  {
    LongestIsFirstMaximum(rs, win);
    var best := Longest(rs, win);
    var k :| FirstLongest(rs, win, k) && rs[k] == best.value;
    ReportOfRun(c, rs[k]);
  }
}
