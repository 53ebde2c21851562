/**
 * `getBetResult` (src/lib/utils.ts:251-306): per company, a progressive-stake simulation.
 * Every participating draw is bet on; a win collects the current prize and resets the stake,
 * a loss adds the stake to the outstanding loss and sets the stake to the smallest multiple
 * of the base stake whose prize would cover that loss and the new stake (possibly the same
 * multiple as before).
 */
module BetSimulator {
  import opened Results
  import opened Classifier
  import opened Series

  // ---------------------------------------------------------------- multiplier

  /** A win at multiplier m pays more than the outstanding loss plus the stake at m. */
  predicate Covers(basePrize: int, baseBet: int, loss: int, m: int)
  {
    basePrize * m > loss + baseBet * m
  }

  lemma StepDown(basePrize: int, baseBet: int, loss: int, m: int)
    ensures loss + baseBet * (m + 1) - basePrize * (m + 1) == loss + baseBet * m - basePrize * m - (basePrize - baseBet)
  {
    assert baseBet * (m + 1) == baseBet * m + baseBet;
    assert basePrize * (m + 1) == basePrize * m + basePrize;
  }

  /** The first covering multiplier from m upwards. */
  function CoverFrom(basePrize: int, baseBet: int, loss: int, m: int): int
    requires basePrize > baseBet
    decreases loss + baseBet * m - basePrize * m
  {
    if Covers(basePrize, baseBet, loss, m) then m
    else
      StepDown(basePrize, baseBet, loss, m);
      CoverFrom(basePrize, baseBet, loss, m + 1)
  }

  /**
   * The multiplier chosen after a loss leaves loss outstanding: the smallest m >= 1 whose
   * prize covers the loss plus the stake at m.
   */
  function Multiplier(basePrize: int, baseBet: int, loss: int): (m: int)
    requires basePrize > baseBet
    ensures m >= 1 && Covers(basePrize, baseBet, loss, m)
    ensures forall k :: 1 <= k < m ==> !Covers(basePrize, baseBet, loss, k)
  {
    CoverFromIsLeast(basePrize, baseBet, loss, 1);
    CoverFrom(basePrize, baseBet, loss, 1)
  }

  /** Searching from m, past multipliers that do not cover, finds the least covering one. */
  lemma {:induction false} CoverFromIsLeast(basePrize: int, baseBet: int, loss: int, m: int)
    requires basePrize > baseBet && m >= 1
    requires forall k :: 1 <= k < m ==> !Covers(basePrize, baseBet, loss, k)
    ensures var r := CoverFrom(basePrize, baseBet, loss, m);
      && r >= m
      && Covers(basePrize, baseBet, loss, r)
      && forall k :: 1 <= k < r ==> !Covers(basePrize, baseBet, loss, k)
    decreases loss + baseBet * m - basePrize * m
  {
    if !Covers(basePrize, baseBet, loss, m) {
      StepDown(basePrize, baseBet, loss, m);
      CoverFromIsLeast(basePrize, baseBet, loss, m + 1);
    }
  }

  /** Any least covering multiplier is the one chosen. */
  lemma SmallestIsMultiplier(basePrize: int, baseBet: int, loss: int, m: int)
    requires basePrize > baseBet
    requires m >= 1 && Covers(basePrize, baseBet, loss, m)
    requires forall k :: 1 <= k < m ==> !Covers(basePrize, baseBet, loss, k)
    ensures m == Multiplier(basePrize, baseBet, loss)
  {
  }

  lemma CoversByMargin(basePrize: int, baseBet: int, loss: int, m: int)
    ensures Covers(basePrize, baseBet, loss, m) <==> (basePrize - baseBet) * m > loss
  {
    assert basePrize * m - baseBet * m == (basePrize - baseBet) * m;
  }

  /**
   * Without a positive margin basePrize - baseBet, no multiplier covers a non-negative loss,
   * so the search after a loss would not end; hence the precondition basePrize > baseBet.
   */
  lemma NoMarginNeverCovers(basePrize: int, baseBet: int, loss: int, m: int)
    requires basePrize <= baseBet && loss >= 0 && m >= 1
    ensures !Covers(basePrize, baseBet, loss, m)
  {
    CoversByMargin(basePrize, baseBet, loss, m);
    MulMonotone(m, basePrize - baseBet, 0);
  }

  lemma MulMonotone(g: int, k: int, q: int)
    requires g > 0 && k <= q
    ensures g * k <= g * q
  {
    assert g * q - g * k == g * (q - k);
  }

  /**
   * In closed form: 1 when nothing is outstanding, otherwise the loss divided by the margin
   * basePrize - baseBet, rounded down, plus one.
   */
  lemma MultiplierClosedForm(basePrize: int, baseBet: int, loss: int)
    requires basePrize > baseBet
    ensures Multiplier(basePrize, baseBet, loss) == if loss < 0 then 1 else loss / (basePrize - baseBet) + 1
  {
    var g := basePrize - baseBet;
    var m := if loss < 0 then 1 else loss / g + 1;
    CoversByMargin(basePrize, baseBet, loss, m);
    if loss >= 0 {
      var q := loss / g;
      assert loss == g * q + loss % g;
      assert g * m == g * q + g;
      forall k | 1 <= k < m ensures !Covers(basePrize, baseBet, loss, k) {
        CoversByMargin(basePrize, baseBet, loss, k);
        MulMonotone(g, k, q);
      }
    }
    SmallestIsMultiplier(basePrize, baseBet, loss, m);
  }

  /**
   * The search run after each loss: count up from 1 while a win would not cover the loss
   * plus the stake. It ends because each step adds basePrize - baseBet > 0 to the margin.
   */
  method SearchMultiplier(basePrize: int, baseBet: int, loss: int) returns (multiplier: int)
    requires basePrize > baseBet
    ensures multiplier >= 1 && Covers(basePrize, baseBet, loss, multiplier)
    ensures forall k :: 1 <= k < multiplier ==> !Covers(basePrize, baseBet, loss, k)
    ensures multiplier == Multiplier(basePrize, baseBet, loss)
  {
    multiplier := 1;
    while basePrize * multiplier <= loss + baseBet * multiplier
      invariant multiplier >= 1
      invariant forall k :: 1 <= k < multiplier ==> !Covers(basePrize, baseBet, loss, k)
      decreases loss + baseBet * multiplier - basePrize * multiplier
    {
      StepDown(basePrize, baseBet, loss, multiplier);
      multiplier := multiplier + 1;
    }
    SmallestIsMultiplier(basePrize, baseBet, loss, multiplier);
  }

  // ---------------------------------------------------------------- simulation

  /** The variables of the per-company scan. */
  datatype SimState = SimState(
    currentBet: int, currentPrize: int, cumulativeLoss: int, netProfit: int,
    totalWins: nat, totalLosses: nat, totalCost: int)

  function Initial(basePrize: int, baseBet: int): SimState
  {
    SimState(baseBet, basePrize, 0, 0, 0, 0, 0)
  }

  /** One participating draw: the current stake is paid, then the win or loss is settled. */
  function Step(basePrize: int, baseBet: int, s: SimState, win: bool): (s': SimState)
    requires basePrize > baseBet
    ensures s'.totalCost == s.totalCost + s.currentBet
    ensures win ==> s'.totalWins == s.totalWins + 1 && s'.totalLosses == s.totalLosses
    ensures win ==> s'.cumulativeLoss == 0 && s'.currentBet == baseBet && s'.currentPrize == basePrize
    ensures !win ==> s'.totalLosses == s.totalLosses + 1 && s'.totalWins == s.totalWins
    ensures !win ==> s'.cumulativeLoss == s.cumulativeLoss + s.currentBet && s'.netProfit == s.netProfit
    ensures !win ==> s'.currentPrize > s'.cumulativeLoss + s'.currentBet
  {
    var cost := s.totalCost + s.currentBet;
    if win then
      SimState(baseBet, basePrize, 0, s.netProfit + (s.currentPrize - s.cumulativeLoss - s.currentBet),
               s.totalWins + 1, s.totalLosses, cost)
    else
      var loss := s.cumulativeLoss + s.currentBet;
      var m := Multiplier(basePrize, baseBet, loss);
      SimState(baseBet * m, basePrize * m, loss, s.netProfit, s.totalWins, s.totalLosses + 1, cost)
  }

  /** The scan's variables after the draws ds. */
  function Simulate(basePrize: int, baseBet: int, ds: seq<Draw>): (s: SimState)
    requires basePrize > baseBet
    ensures s.totalWins + s.totalLosses == |ds|
  {
    if ds == [] then Initial(basePrize, baseBet)
    else Step(basePrize, baseBet, Simulate(basePrize, baseBet, ds[..|ds| - 1]), ds[|ds| - 1].win)
  }

  lemma SimulateSnoc(basePrize: int, baseBet: int, ds: seq<Draw>, d: Draw)
    requires basePrize > baseBet
    ensures Simulate(basePrize, baseBet, ds + [d]) == Step(basePrize, baseBet, Simulate(basePrize, baseBet, ds), d.win)
  {
    assert (ds + [d])[..|ds|] == ds;
  }

  // ---------------------------------------------------------------- ledger

  /** The sum of some amounts. */
  function Total(xs: seq<int>): int
  {
    if xs == [] then 0 else Total(xs[..|xs| - 1]) + xs[|xs| - 1]
  }

  lemma TotalSnoc(xs: seq<int>, x: int)
    ensures Total(xs + [x]) == Total(xs) + x
  {
    assert (xs + [x])[..|xs|] == xs;
  }

  /** The stake placed on each draw of ds, in order. */
  function Stakes(basePrize: int, baseBet: int, ds: seq<Draw>): (xs: seq<int>)
    requires basePrize > baseBet
    ensures |xs| == |ds|
  {
    if ds == [] then []
    else
      var prefix := ds[..|ds| - 1];
      Stakes(basePrize, baseBet, prefix) + [Simulate(basePrize, baseBet, prefix).currentBet]
  }

  /** The prize collected on each winning draw of ds, in order. */
  function Prizes(basePrize: int, baseBet: int, ds: seq<Draw>): seq<int>
    requires basePrize > baseBet
  {
    if ds == [] then []
    else
      var prefix := ds[..|ds| - 1];
      Prizes(basePrize, baseBet, prefix)
        + (if ds[|ds| - 1].win then [Simulate(basePrize, baseBet, prefix).currentPrize] else [])
  }

  /**
   * The bookkeeping of the scan: the total cost is the sum of all stakes, the cumulative loss
   * is the sum of the stakes lost since the last win, and the net profit is what the prizes
   * brought in minus the stakes, not counting the outstanding loss.
   */
  ghost predicate Ledger(basePrize: int, baseBet: int, ds: seq<Draw>, s: SimState)
    requires basePrize > baseBet
  {
    var stakes := Stakes(basePrize, baseBet, ds);
    && s.totalCost == Total(stakes)
    && s.cumulativeLoss == Total(stakes[|ds| - TrailingLosses(ds)..])
    && s.netProfit == Total(Prizes(basePrize, baseBet, ds)) - s.totalCost + s.cumulativeLoss
  }

  /** The scan keeps its ledger: costs, outstanding loss and profit add up over the draws. */
  lemma {:induction false} LedgerHolds(basePrize: int, baseBet: int, ds: seq<Draw>)
    requires basePrize > baseBet
    ensures Ledger(basePrize, baseBet, ds, Simulate(basePrize, baseBet, ds))
  {
    if ds != [] {
      var prefix, d := ds[..|ds| - 1], ds[|ds| - 1];
      assert ds == prefix + [d];
      LedgerHolds(basePrize, baseBet, prefix);
      LedgerStep(basePrize, baseBet, prefix, d, Simulate(basePrize, baseBet, prefix));
    }
  }

  lemma LedgerStep(basePrize: int, baseBet: int, ds: seq<Draw>, d: Draw, s: SimState)
    requires basePrize > baseBet
    requires s == Simulate(basePrize, baseBet, ds) && Ledger(basePrize, baseBet, ds, s)
    ensures Ledger(basePrize, baseBet, ds + [d], Step(basePrize, baseBet, s, d.win))
  {
    var ds' := ds + [d];
    assert ds'[..|ds|] == ds;
    var stakes := Stakes(basePrize, baseBet, ds);
    var stakes' := Stakes(basePrize, baseBet, ds');
    assert stakes' == stakes + [s.currentBet];
    TotalSnoc(stakes, s.currentBet);
    var prizes := Prizes(basePrize, baseBet, ds);
    if d.win {
      assert Prizes(basePrize, baseBet, ds') == prizes + [s.currentPrize];
      TotalSnoc(prizes, s.currentPrize);
      assert TrailingLosses(ds') == 0;
      assert stakes'[|ds'|..] == [];
    } else {
      assert Prizes(basePrize, baseBet, ds') == prizes + [] == prizes;
      var from := |ds| - TrailingLosses(ds);
      assert TrailingLosses(ds') == TrailingLosses(ds) + 1;
      assert stakes'[from..] == stakes[from..] + [s.currentBet];
      TotalSnoc(stakes[from..], s.currentBet);
    }
  }

  // ---------------------------------------------------------------- stake and profit

  /** The stake and the prize are always the least covering multiple of the outstanding loss. */
  lemma {:induction false} StakeCoversLoss(basePrize: int, baseBet: int, ds: seq<Draw>)
    requires basePrize > baseBet
    ensures var s := Simulate(basePrize, baseBet, ds);
      var m := Multiplier(basePrize, baseBet, s.cumulativeLoss);
      s.currentBet == baseBet * m && s.currentPrize == basePrize * m
  {
    if ds != [] {
      var prefix := ds[..|ds| - 1];
      StakeCoversLoss(basePrize, baseBet, prefix);
      if ds[|ds| - 1].win {
        assert Multiplier(basePrize, baseBet, 0) == 1;
      }
    }
  }

  /** So a win at the current stake is always net-positive. */
  lemma WinIsProfitable(basePrize: int, baseBet: int, ds: seq<Draw>)
    requires basePrize > baseBet
    ensures var s := Simulate(basePrize, baseBet, ds);
      s.currentPrize - s.cumulativeLoss - s.currentBet > 0
  {
    var s := Simulate(basePrize, baseBet, ds);
    StakeCoversLoss(basePrize, baseBet, ds);
  }

  /**
   * One more draw: a win raises the net profit and resets the outstanding loss, the stake and
   * the prize to their base values; a loss leaves the net profit as it was.
   */
  lemma NetProfitStep(basePrize: int, baseBet: int, ds: seq<Draw>, d: Draw)
    requires basePrize > baseBet
    ensures var s, s' := Simulate(basePrize, baseBet, ds), Simulate(basePrize, baseBet, ds + [d]);
      && (d.win ==> s'.netProfit > s.netProfit)
      && (d.win ==> s'.cumulativeLoss == 0 && s'.currentBet == baseBet && s'.currentPrize == basePrize)
      && (!d.win ==> s'.netProfit == s.netProfit)
  {
    SimulateSnoc(basePrize, baseBet, ds, d);
    WinIsProfitable(basePrize, baseBet, ds);
  }

  /** Every win adds at least one to the net profit, so it is never negative. */
  lemma {:induction false} NetProfitAtLeastWins(basePrize: int, baseBet: int, ds: seq<Draw>)
    requires basePrize > baseBet
    ensures var s := Simulate(basePrize, baseBet, ds);
      s.netProfit >= s.totalWins >= 0
  {
    if ds != [] {
      var prefix, d := ds[..|ds| - 1], ds[|ds| - 1];
      assert ds == prefix + [d];
      NetProfitAtLeastWins(basePrize, baseBet, prefix);
      NetProfitStep(basePrize, baseBet, prefix, d);
    }
  }

  /** The net profit never decreases along the draws. */
  lemma {:induction false} NetProfitMonotone(basePrize: int, baseBet: int, ds: seq<Draw>, n: nat)
    requires basePrize > baseBet && n <= |ds|
    ensures Simulate(basePrize, baseBet, ds[..n]).netProfit <= Simulate(basePrize, baseBet, ds).netProfit
    decreases |ds| - n
  {
    if n < |ds| {
      var prefix, d := ds[..n], ds[n];
      assert ds[..n + 1] == prefix + [d];
      NetProfitStep(basePrize, baseBet, prefix, d);
      NetProfitMonotone(basePrize, baseBet, ds, n + 1);
    } else {
      assert ds[..n] == ds;
    }
  }

  /** Every participating draw is counted once, as a win or as a loss. */
  lemma {:induction false} CountsCoverDraws(basePrize: int, baseBet: int, ds: seq<Draw>)
    requires basePrize > baseBet
    ensures var s := Simulate(basePrize, baseBet, ds);
      s.totalWins + s.totalLosses == |ds|
      && s.totalLosses >= TrailingLosses(ds)
  {
    if ds != [] {
      CountsCoverDraws(basePrize, baseBet, ds[..|ds| - 1]);
    }
  }

  // ---------------------------------------------------------------- results

  /** One company's simulation outcome; the company's name is not capitalised here. */
  datatype BetResult = BetResult(company: Company, totalWins: nat, totalLosses: nat, totalCost: int, netProfit: int)

  /** What `getBetResult` reports for one company. */
  function BetResultFor(sorted: seq<Row>, c: Company, basePrize: int, baseBet: int): BetResult
    requires basePrize > baseBet
  {
    var s := Simulate(basePrize, baseBet, DrawsOf(sorted, c));
    BetResult(c, s.totalWins, s.totalLosses, s.totalCost, s.netProfit)
  }

  /**
   * One participating draw on the running variables: the stake is added to the cost; a win
   * books the prize net of the outstanding loss and the stake and resets the stake, a loss adds
   * the stake to the outstanding loss and searches for the next multiplier.
   */
  method Settle(basePrize: int, baseBet: int, s: SimState, isWin: bool) returns (s': SimState)
    requires basePrize > baseBet
    ensures s' == Step(basePrize, baseBet, s, isWin)
  {
    var totalCost := s.totalCost + s.currentBet;
    if isWin {
      s' := SimState(baseBet, basePrize, 0, s.netProfit + (s.currentPrize - s.cumulativeLoss - s.currentBet),
                     s.totalWins + 1, s.totalLosses, totalCost);
    } else {
      var cumulativeLoss := s.cumulativeLoss + s.currentBet;
      var multiplier := SearchMultiplier(basePrize, baseBet, cumulativeLoss);
      s' := SimState(baseBet * multiplier, basePrize * multiplier, cumulativeLoss, s.netProfit,
                     s.totalWins, s.totalLosses + 1, totalCost);
    }
  }

  /** The scan over one company's rows, its running variables held in one SimState. */
  method CompanyBetResult(sorted: seq<Row>, c: Company, basePrize: int, baseBet: int) returns (r: BetResult)
    requires basePrize > baseBet
    ensures r == BetResultFor(sorted, c, basePrize, baseBet)
  {
    var s := Initial(basePrize, baseBet);
    ghost var ds: seq<Draw> := [];
    for i := 0 to |sorted|
      invariant ds == DrawsOf(sorted[..i], c)
      invariant s == Simulate(basePrize, baseBet, ds)
    {
      var row := sorted[i];
      if !Participates(row, c) {
        DrawsOfSkip(sorted, i, c);
        continue;
      }
      ghost var d := DrawAt(row, c);
      DrawsOfSnoc(sorted, i, c);
      var isWin := HasDuplicateInLastThreeDigits(ValueOf(row, c));
      assert d.win == isWin;
      SimulateSnoc(basePrize, baseBet, ds, d);
      ds := ds + [d];
      s := Settle(basePrize, baseBet, s, isWin);
    }
    assert sorted[..|sorted|] == sorted;
    r := BetResult(c, s.totalWins, s.totalLosses, s.totalCost, s.netProfit);
  }

  /** The outcomes for the companies cs, in the order of cs. */
  function BetAll(sorted: seq<Row>, cs: seq<Company>, basePrize: int, baseBet: int): (results: seq<BetResult>)
    requires basePrize > baseBet
    ensures |results| == |cs|
  {
    if cs == [] then []
    else BetAll(sorted, cs[..|cs| - 1], basePrize, baseBet) + [BetResultFor(sorted, cs[|cs| - 1], basePrize, baseBet)]
  }

  /** Entry k is company cs[k]'s outcome. */
  lemma {:induction false} BetAllAt(sorted: seq<Row>, cs: seq<Company>, basePrize: int, baseBet: int)
    requires basePrize > baseBet
    ensures forall k :: 0 <= k < |cs| ==>
      BetAll(sorted, cs, basePrize, baseBet)[k] == BetResultFor(sorted, cs[k], basePrize, baseBet)
  {
    if cs != [] {
      var cs' := cs[..|cs| - 1];
      BetAllAt(sorted, cs', basePrize, baseBet);
      assert forall k :: 0 <= k < |cs'| ==> cs[k] == cs'[k];
    }
  }

  /**
   * `getBetResult`: one outcome per company, in the order of the company list. The search
   * for a multiplier only ends when the base prize exceeds the base stake.
   */
  method GetBetResult(data: seq<Row>, basePrize: int, baseBet: int) returns (results: seq<BetResult>)
    requires basePrize > baseBet
    ensures results == BetAll(SortByDate(data), Companies, basePrize, baseBet)
  {
    var sorted := SortByDate(data);
    results := [];
    for ci := 0 to |Companies|
      invariant results == BetAll(sorted, Companies[..ci], basePrize, baseBet)
    {
      var r := CompanyBetResult(sorted, Companies[ci], basePrize, baseBet);
      assert Companies[..ci + 1][..ci] == Companies[..ci];
      results := results + [r];
    }
    assert Companies[..|Companies|] == Companies;
  }

  /**
   * For each company: the outcome is about that company, wins and losses add up to its
   * participating draws, the net profit is at least the number of wins, and the total cost
   * is the sum of the stakes.
   */
  lemma BetResultBounds(sorted: seq<Row>, c: Company, basePrize: int, baseBet: int)
    requires basePrize > baseBet
    ensures var r, ds := BetResultFor(sorted, c, basePrize, baseBet), DrawsOf(sorted, c);
      && r.company == c
      && r.totalWins + r.totalLosses == |ds|
      && r.netProfit >= r.totalWins
      && r.totalCost == Total(Stakes(basePrize, baseBet, ds))
  {
    var ds := DrawsOf(sorted, c);
    CountsCoverDraws(basePrize, baseBet, ds);
    NetProfitAtLeastWins(basePrize, baseBet, ds);
    LedgerHolds(basePrize, baseBet, ds);
  }
}
