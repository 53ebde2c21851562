/**
 * `getBetHitRate` (src/lib/utils.ts:178-249): per company, the rounded mean length of the
 * losing runs that a win ended, then a replay that bets on the draw right after the losing
 * count reaches that mean, counting bets and hits.
 */
module HitRate {
  import opened Results
  import opened Classifier
  import opened Series
  import opened AverageStreaks

  // ---------------------------------------------------------------- first pass

  /**
   * `Math.round(total / count)` for a non-negative total and a positive count: the nearest
   * integer to the quotient, halves rounded up.
   */
  function RoundHalfUp(total: nat, count: nat): (r: nat)
    requires count > 0
    ensures 2 * r * count <= 2 * total + count < 2 * (r + 1) * count
  {
    var q := (2 * total + count) / (2 * count);
    assert 2 * total + count == q * (2 * count) + (2 * total + count) % (2 * count);
    q
  }

  /** The lengths of the losing runs a win has ended: every losing run but a trailing one. */
  function CompletedLoses(ds: seq<Draw>): seq<nat>
  {
    Lengths(Closed(RunsOf(ds)), false)
  }

  /** `avgLoseStreak`: the rounded mean of the completed losing runs, 0 when there is none. */
  function AvgLoseStreak(ds: seq<Draw>): (avg: nat)
    ensures CompletedLoses(ds) == [] ==> avg == 0
    ensures var ls := CompletedLoses(ds);
      ls != [] ==> 2 * avg * |ls| <= 2 * Sum(ls) + |ls| < 2 * (avg + 1) * |ls|
  {
    var ls := CompletedLoses(ds);
    if |ls| > 0 then RoundHalfUp(Sum(ls), |ls|) else 0
  }

  /** First-pass variables after the draws ds: the trailing losing count and the completed runs. */
  ghost predicate Pass1State(ds: seq<Draw>, loseStreak: nat, totalLoseStreaks: nat, streakCount: nat, lastWasLose: bool)
  {
    var rs := RunsOf(ds);
    var losing := rs != [] && !rs[|rs| - 1].win;
    && lastWasLose == losing
    && loseStreak == (if losing then |rs[|rs| - 1].draws| else 0)
    && totalLoseStreaks == Sum(CompletedLoses(ds))
    && streakCount == |CompletedLoses(ds)|
  }

  /** When the last run is a winning one, all losing runs are completed. */
  lemma ClosedLoses(rs: seq<Run>)
    requires rs != []
    ensures Lengths(rs, false) ==
      Lengths(Closed(rs), false) + (if !rs[|rs| - 1].win then [|rs[|rs| - 1].draws|] else [])
  {
    var rs', r := rs[..|rs| - 1], rs[|rs| - 1];
    assert rs == rs' + [r];
    LengthsSnoc(rs', r, false);
  }

  lemma Pass1Step(ds: seq<Draw>, d: Draw, loseStreak: nat, totalLoseStreaks: nat, streakCount: nat, lastWasLose: bool)
    requires Pass1State(ds, loseStreak, totalLoseStreaks, streakCount, lastWasLose)
    ensures !d.win ==> Pass1State(ds + [d], loseStreak + 1, totalLoseStreaks, streakCount, true)
    ensures d.win ==>
      if lastWasLose && loseStreak > 0
      then Pass1State(ds + [d], 0, totalLoseStreaks + loseStreak, streakCount + 1, false)
      else Pass1State(ds + [d], 0, totalLoseStreaks, streakCount, false)
  {
    var rs, rs' := RunsOf(ds), RunsOf(ds + [d]);
    RunsOfStep(ds, d);
    if rs != [] {
      var last := rs[|rs| - 1];
      ClosedLoses(rs);
      if !last.win {
        SumSnoc(CompletedLoses(ds), |last.draws|);
        if d.win {
          assert CompletedLoses(ds + [d]) == CompletedLoses(ds) + [|last.draws|];
        }
      } else {
        assert Lengths(rs, false) == CompletedLoses(ds);
      }
    }
  }

  /** The first pass over one company's rows: the rounded mean completed losing run. */
  method AverageLoseStreak(sorted: seq<Row>, c: Company) returns (avgLoseStreak: nat)
    ensures avgLoseStreak == AvgLoseStreak(DrawsOf(sorted, c))
  {
    var loseStreak: nat := 0;
    var totalLoseStreaks: nat := 0;
    var streakCount: nat := 0;
    var lastWasLose := false;
    ghost var ds: seq<Draw> := [];
    for i := 0 to |sorted|
      invariant ds == DrawsOf(sorted[..i], c)
      invariant Pass1State(ds, loseStreak, totalLoseStreaks, streakCount, lastWasLose)
    {
      var row := sorted[i];
      if !Participates(row, c) {
        DrawsOfSkip(sorted, i, c);
        continue;
      }
      ghost var d := DrawAt(row, c);
      DrawsOfSnoc(sorted, i, c);
      var isWin := HasDuplicateInLastThreeDigits(ValueOf(row, c));
      assert d.win == isWin;
      Pass1Step(ds, d, loseStreak, totalLoseStreaks, streakCount, lastWasLose);
      ds := ds + [d];
      if !isWin {
        loseStreak := loseStreak + 1;
        lastWasLose := true;
      } else {
        if lastWasLose && loseStreak > 0 {
          totalLoseStreaks := totalLoseStreaks + loseStreak;
          streakCount := streakCount + 1;
        }
        loseStreak := 0;
        lastWasLose := false;
      }
    }
    assert sorted[..|sorted|] == sorted;
    avgLoseStreak := if streakCount > 0 then RoundHalfUp(totalLoseStreaks, streakCount) else 0;
  }

  /**
   * The mean counts only the losing runs a win ended: each is followed by a winning run, and a
   * trailing losing run is left out. It is 0 when no run qualifies, and otherwise between 1 and
   * the longest completed run.
   */
  lemma AvgLoseStreakProperties(ds: seq<Draw>)
    ensures var rs := RunsOf(ds);
      && (forall k :: 0 <= k < |rs| - 1 && !rs[k].win ==> rs[k + 1].win)
      && (rs != [] ==>
            Lengths(rs, false) == CompletedLoses(ds) + (if !rs[|rs| - 1].win then [|rs[|rs| - 1].draws|] else []))
      && (CompletedLoses(ds) == [] ==> AvgLoseStreak(ds) == 0)
      && (CompletedLoses(ds) != [] ==> 1 <= AvgLoseStreak(ds) <= |ds|)
  {
    var rs := RunsOf(ds);
    RunsOfIsPartition(ds);
    if rs != [] {
      ClosedLoses(rs);
    }
    CompletedLosesWithin(ds);
  }

  /** The completed losing runs have lengths between 1 and the number of draws. */
  lemma CompletedLosesWithin(ds: seq<Draw>)
    ensures CompletedLoses(ds) != [] ==> 1 <= AvgLoseStreak(ds) <= |ds|
  {
    var ls := CompletedLoses(ds);
    if ls != [] {
      CompletedLosesBounded(ds);
      SumWithin(ls, 1, |ds|);
      RoundWithin(Sum(ls), |ls|, |ds|);
    }
  }

  /** Every completed losing run has between one and |ds| draws. */
  lemma CompletedLosesBounded(ds: seq<Draw>)
    ensures forall k :: 0 <= k < |CompletedLoses(ds)| ==> 1 <= CompletedLoses(ds)[k] <= |ds|
  {
    var rs := RunsOf(ds);
    var rs' := Closed(rs);
    RunsOfIsPartition(ds);
    assert forall k :: 0 <= k < |rs'| ==> rs'[k] == rs[k];
    LengthsArePositive(rs', false);
    LoseLengthsAtMostDraws(ds);
  }

  /** No completed losing run is longer than the draws. */
  lemma LoseLengthsAtMostDraws(ds: seq<Draw>)
    ensures forall k :: 0 <= k < |CompletedLoses(ds)| ==> CompletedLoses(ds)[k] <= |ds|
  {
    var rs := RunsOf(ds);
    RunsOfIsPartition(ds);
    LengthsCoverFlatten(rs);
    ElementAtMostSum(Lengths(rs, false));
    if rs != [] {
      ClosedLoses(rs);
      var ls := CompletedLoses(ds);
      assert forall k :: 0 <= k < |ls| ==> ls[k] == Lengths(rs, false)[k];
    }
  }

  lemma LessByFactor(a: int, b: int, c: int)
    requires c > 0 && a * c < b * c
    ensures a < b
  {
  }

  /** The rounded mean of a total between count and count*hi lies between 1 and hi. */
  lemma RoundWithin(total: nat, count: nat, hi: nat)
    requires count > 0 && count <= total <= count * hi
    ensures 1 <= RoundHalfUp(total, count) <= hi
  {
    var r := RoundHalfUp(total, count);
    assert 3 * count <= 2 * total + count < 2 * (r + 1) * count;
    LessByFactor(3, 2 * (r + 1), count);
    assert 2 * r * count <= 2 * total + count <= (2 * hi + 1) * count;
    LessByFactor(2 * r, 2 * hi + 2, count);
  }

  // ---------------------------------------------------------------- second pass

  /**
   * The bets of the replay: one on each draw j > 0 whose preceding draws ds[..j] end with
   * exactly avg losses.
   */
  function Bets(ds: seq<Draw>, avg: nat): nat
  {
    if ds == [] then 0
    else
      var prefix := ds[..|ds| - 1];
      Bets(prefix, avg) + (if prefix != [] && TrailingLosses(prefix) == avg then 1 else 0)
  }

  /** The hits of the replay: the bets placed on a winning draw. */
  function Hits(ds: seq<Draw>, avg: nat): nat
  {
    if ds == [] then 0
    else
      var prefix := ds[..|ds| - 1];
      Hits(prefix, avg) + (if prefix != [] && TrailingLosses(prefix) == avg && ds[|ds| - 1].win then 1 else 0)
  }

  /** Second-pass variables after the draws ds. */
  ghost predicate Pass2State(ds: seq<Draw>, avg: nat, currentLose: nat, canBet: bool, bets: nat, hits: nat)
  {
    && currentLose == TrailingLosses(ds)
    && canBet == (ds != [] && TrailingLosses(ds) == avg)
    && bets == Bets(ds, avg)
    && hits == Hits(ds, avg)
  }

  lemma Pass2Step(ds: seq<Draw>, d: Draw, avg: nat, currentLose: nat, canBet: bool, bets: nat, hits: nat)
    requires Pass2State(ds, avg, currentLose, canBet, bets, hits)
    ensures var lose := if d.win then 0 else currentLose + 1;
      Pass2State(ds + [d], avg, lose, lose == avg,
        if canBet then bets + 1 else bets, if canBet && d.win then hits + 1 else hits)
  {
    assert (ds + [d])[..|ds|] == ds;
  }

  /** The second pass over one company's rows: bets and hits. */
  method ReplayBets(sorted: seq<Row>, c: Company, avgLoseStreak: nat) returns (bets: nat, hits: nat)
    ensures bets == Bets(DrawsOf(sorted, c), avgLoseStreak)
    ensures hits == Hits(DrawsOf(sorted, c), avgLoseStreak)
  {
    var currentLose: nat := 0;
    var canBet := false;
    bets, hits := 0, 0;
    ghost var ds: seq<Draw> := [];
    for i := 0 to |sorted|
      invariant ds == DrawsOf(sorted[..i], c)
      invariant Pass2State(ds, avgLoseStreak, currentLose, canBet, bets, hits)
    {
      var row := sorted[i];
      if !Participates(row, c) {
        DrawsOfSkip(sorted, i, c);
        continue;
      }
      ghost var d := DrawAt(row, c);
      DrawsOfSnoc(sorted, i, c);
      var isWin := HasDuplicateInLastThreeDigits(ValueOf(row, c));
      assert d.win == isWin;
      Pass2Step(ds, d, avgLoseStreak, currentLose, canBet, bets, hits);
      ds := ds + [d];
      if !isWin {
        currentLose := currentLose + 1;
      } else {
        currentLose := 0;
      }
      if canBet {
        bets := bets + 1;
        if isWin {
          hits := hits + 1;
        }
        canBet := false;
      }
      if currentLose == avgLoseStreak {
        canBet := true;
      }
    }
    assert sorted[..|sorted|] == sorted;
  }

  /** Hits never exceed bets, and there is at most one bet per draw after the first. */
  lemma {:induction false} HitsAtMostBets(ds: seq<Draw>, avg: nat)
    ensures Hits(ds, avg) <= Bets(ds, avg)
    ensures ds != [] ==> Bets(ds, avg) <= |ds| - 1
  {
    if ds != [] {
      HitsAtMostBets(ds[..|ds| - 1], avg);
    }
  }

  // ---------------------------------------------------------------- results

  datatype HitRateResult = HitRateResult(bets: nat, hits: nat, hitRate: real)

  /** The hit rate in percent, 0 without bets; the rounding to two decimals is not modelled. */
  function MakeResult(bets: nat, hits: nat): (r: HitRateResult)
    ensures r.bets == bets && r.hits == hits
    ensures bets == 0 ==> r.hitRate == 0.0
    ensures bets > 0 ==> r.hitRate * bets as real == 100.0 * hits as real
  {
    HitRateResult(bets, hits, if bets > 0 then (hits as real / bets as real) * 100.0 else 0.0)
  }

  /** What `getBetHitRate` reports for one company. */
  function HitRateFor(sorted: seq<Row>, c: Company): HitRateResult
  {
    var ds := DrawsOf(sorted, c);
    var avg := AvgLoseStreak(ds);
    MakeResult(Bets(ds, avg), Hits(ds, avg))
  }

  /** Both passes for one company. */
  method CompanyHitRate(sorted: seq<Row>, c: Company) returns (r: HitRateResult)
    ensures r == HitRateFor(sorted, c)
  {
    var avgLoseStreak := AverageLoseStreak(sorted, c);
    var bets, hits := ReplayBets(sorted, c, avgLoseStreak);
    r := MakeResult(bets, hits);
  }

  /** The results for the companies cs: each one's result under its key. */
  function HitRateAll(sorted: seq<Row>, cs: seq<Company>): map<Company, HitRateResult>
  {
    if cs == [] then map[]
    else HitRateAll(sorted, cs[..|cs| - 1])[cs[|cs| - 1] := HitRateFor(sorted, cs[|cs| - 1])]
  }

  lemma HitRateAllSnoc(sorted: seq<Row>, cs: seq<Company>, k: nat)
    requires k < |cs|
    ensures HitRateAll(sorted, cs[..k + 1]) == HitRateAll(sorted, cs[..k])[cs[k] := HitRateFor(sorted, cs[k])]
  {
    assert cs[..k + 1][..k] == cs[..k];
  }

  /** The keys are the companies of cs, each holding its own result. */
  lemma {:induction false} HitRateAllAt(sorted: seq<Row>, cs: seq<Company>)
    ensures forall c :: c in HitRateAll(sorted, cs) <==> c in cs
    ensures forall c :: c in HitRateAll(sorted, cs) ==> HitRateAll(sorted, cs)[c] == HitRateFor(sorted, c)
  {
    if cs != [] {
      var cs' := cs[..|cs| - 1];
      HitRateAllAt(sorted, cs');
      assert cs == cs' + [cs[|cs| - 1]];
    }
  }

  /** Every company has a result, and it is that company's. */
  lemma HitRateAllCompanies(sorted: seq<Row>)
    ensures forall c: Company :: c in HitRateAll(sorted, Companies) && HitRateAll(sorted, Companies)[c] == HitRateFor(sorted, c)
  {
    HitRateAllAt(sorted, Companies);
    CompaniesListsEachCompanyOnce();
  }

  /** `getBetHitRate`: a result for every company. */
  method GetBetHitRate(data: seq<Row>) returns (results: map<Company, HitRateResult>)
    ensures results == HitRateAll(SortByDate(data), Companies)
  {
    var sorted := SortByDate(data);
    results := map[];
    for ci := 0 to |Companies|
      invariant results == HitRateAll(sorted, Companies[..ci])
    {
      var c := Companies[ci];
      var r := CompanyHitRate(sorted, c);
      HitRateAllSnoc(sorted, Companies, ci);
      results := results[c := r];
    }
    assert Companies[..|Companies|] == Companies;
  }

  /**
   * For each company: hits <= bets <= participating draws, and the hit rate is a percentage,
   * 0 when no bet was placed.
   */
  lemma HitRateBounds(sorted: seq<Row>, c: Company)
    ensures var r := HitRateFor(sorted, c);
      && r.hits <= r.bets <= |DrawsOf(sorted, c)|
      && (r.bets == 0 ==> r.hitRate == 0.0)
      && 0.0 <= r.hitRate <= 100.0
  {
    var ds := DrawsOf(sorted, c);
    var avg := AvgLoseStreak(ds);
    var bets, hits := Bets(ds, avg), Hits(ds, avg);
    HitsAtMostBets(ds, avg);
    RateWithin(bets, hits);
    assert HitRateFor(sorted, c) == MakeResult(bets, hits);
  }

  /** With no more hits than bets, the rate is a percentage, 0 without bets. */
  lemma RateWithin(bets: nat, hits: nat)
    requires hits <= bets
    ensures var r := MakeResult(bets, hits);
      && r.bets == bets && r.hits == hits
      && (bets == 0 ==> r.hitRate == 0.0)
      && 0.0 <= r.hitRate <= 100.0
  {
    if bets > 0 {
      PercentWithin(bets, hits, MakeResult(bets, hits).hitRate);
    }
  }

  lemma PercentWithin(bets: nat, hits: nat, rate: real)
    requires 0 < bets && hits <= bets && rate * bets as real == 100.0 * hits as real
    ensures 0.0 <= rate <= 100.0
  {
    QuotientWithin(rate, bets as real, 100.0 * hits as real, 0.0, 100.0);
  }
}
