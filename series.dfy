/**
 * What every analyzer shares (src/lib/utils.ts:53-101, 137-162): a copy of the rows sorted
 * by draw date, the participating draws of one company in that order, and their partition
 * into maximal runs of equal win/lose classification.
 */
module Series {
  import opened Wrappers
  import opened Results
  import opened Classifier

  // ---------------------------------------------------------------- sorting by date

  /**
   * `a.localeCompare(b) <= 0` for draw dates, taken as code-point lexicographic order
   * (the two agree on ISO `YYYY-MM-DD` strings).
   */
  predicate DateLe(a: string, b: string)
  {
    if a == [] then true
    else if b == [] then false
    else if a[0] != b[0] then a[0] < b[0]
    else DateLe(a[1..], b[1..])
  }

  lemma {:induction false} DateLeTotal(a: string, b: string)
    ensures DateLe(a, b) || DateLe(b, a)
  {
    if a != [] && b != [] && a[0] == b[0] {
      DateLeTotal(a[1..], b[1..]);
    }
  }

  lemma {:induction false} DateLeTransitive(a: string, b: string, c: string)
    requires DateLe(a, b) && DateLe(b, c)
    ensures DateLe(a, c)
  {
    if a != [] && b != [] && c != [] && a[0] == b[0] && b[0] == c[0] {
      DateLeTransitive(a[1..], b[1..], c[1..]);
    }
  }

  lemma {:induction false} DateLeAntisymmetric(a: string, b: string)
    requires DateLe(a, b) && DateLe(b, a)
    ensures a == b
  {
    if a != [] && b != [] {
      DateLeAntisymmetric(a[1..], b[1..]);
      assert a == [a[0]] + a[1..] && b == [b[0]] + b[1..];
    }
  }

  ghost predicate SortedByDate(rows: seq<Row>)
  {
    forall i, j :: 0 <= i < j < |rows| ==> DateLe(rows[i].drawDate, rows[j].drawDate)
  }

  /** Places r after every row of the sorted sequence whose date is not later than r's. */
  function InsertByDate(r: Row, sorted: seq<Row>): (res: seq<Row>)
    requires SortedByDate(sorted)
    ensures SortedByDate(res)
    ensures multiset(res) == multiset(sorted) + multiset{r}
  {
    if sorted == [] then [r]
    else if !DateLe(sorted[0].drawDate, r.drawDate) then
      InsertFirst(r, sorted);
      [r] + sorted
    else
      SortedTail(sorted);
      var rest := InsertByDate(r, sorted[1..]);
      InsertAfterHead(r, sorted, rest);
      [sorted[0]] + rest
  }

  /** A row dated before the head of a sorted sequence can go in front of it. */
  lemma InsertFirst(r: Row, sorted: seq<Row>)
    requires SortedByDate(sorted) && sorted != [] && !DateLe(sorted[0].drawDate, r.drawDate)
    ensures SortedByDate([r] + sorted)
  {
    DateLeTotal(sorted[0].drawDate, r.drawDate);
    forall j | 0 <= j < |sorted| ensures DateLe(r.drawDate, sorted[j].drawDate) {
      if j > 0 { DateLeTransitive(r.drawDate, sorted[0].drawDate, sorted[j].drawDate); }
    }
    var res := [r] + sorted;
    forall i, j | 0 <= i < j < |res| ensures DateLe(res[i].drawDate, res[j].drawDate) {
      assert res[j] == sorted[j - 1];
      if i > 0 { assert res[i] == sorted[i - 1]; }
    }
  }

  /** A row dated not before the head goes into the tail, and the head stays in front. */
  lemma InsertAfterHead(r: Row, sorted: seq<Row>, rest: seq<Row>)
    requires SortedByDate(sorted) && sorted != [] && DateLe(sorted[0].drawDate, r.drawDate)
    requires SortedByDate(rest) && multiset(rest) == multiset(sorted[1..]) + multiset{r}
    ensures SortedByDate([sorted[0]] + rest)
    ensures multiset([sorted[0]] + rest) == multiset(sorted) + multiset{r}
  {
    assert multiset(sorted) == multiset{sorted[0]} + multiset(sorted[1..]) by {
      assert sorted == [sorted[0]] + sorted[1..];
    }
    forall x | x in rest ensures DateLe(sorted[0].drawDate, x.drawDate) {
      assert x in multiset(rest);
      if x != r {
        assert x in multiset(sorted[1..]);
        var j :| 0 <= j < |sorted[1..]| && sorted[1..][j] == x;
        assert sorted[j + 1] == x;
      }
    }
    SortedCons(sorted[0], rest);
  }

  /** A row dated not after any row of a sorted sequence can go in front of it. */
  lemma SortedCons(h: Row, rest: seq<Row>)
    requires SortedByDate(rest) && forall x | x in rest :: DateLe(h.drawDate, x.drawDate)
    ensures SortedByDate([h] + rest)
  {
    var res := [h] + rest;
    forall i, j | 0 <= i < j < |res| ensures DateLe(res[i].drawDate, res[j].drawDate) {
      assert res[j] == rest[j - 1] && res[j] in rest;
      if i > 0 { assert res[i] == rest[i - 1]; }
    }
  }

  /** `[...data].sort((a, b) => a.draw_date.localeCompare(b.draw_date))`: a sorted copy of the rows. */
  function SortByDate(rows: seq<Row>): (sorted: seq<Row>)
    ensures SortedByDate(sorted)
    ensures multiset(sorted) == multiset(rows)
  {
    if rows == [] then []
    else
      assert rows == rows[..|rows| - 1] + [rows[|rows| - 1]];
      InsertByDate(rows[|rows| - 1], SortByDate(rows[..|rows| - 1]))
  }

  /**
   * The data model's key: a draw date identifies its row (at most one row per date,
   * though a row may be repeated).
   */
  ghost predicate DateKeyed(rows: seq<Row>)
  {
    forall i, j :: 0 <= i < |rows| && 0 <= j < |rows| && rows[i].drawDate == rows[j].drawDate ==> rows[i] == rows[j]
  }

  lemma DateKeyedPermutation(a: seq<Row>, b: seq<Row>)
    requires DateKeyed(a) && multiset(a) == multiset(b)
    ensures DateKeyed(b)
  {
    forall i, j | 0 <= i < |b| && 0 <= j < |b| && b[i].drawDate == b[j].drawDate ensures b[i] == b[j] {
      assert b[i] in multiset(a) && b[j] in multiset(a);
      var i' :| 0 <= i' < |a| && a[i'] == b[i];
      var j' :| 0 <= j' < |a| && a[j'] == b[j];
    }
  }

  lemma SortedTail(a: seq<Row>)
    requires SortedByDate(a) && a != []
    ensures SortedByDate(a[1..])
  {
    forall i, j | 0 <= i < j < |a| - 1 ensures DateLe(a[1..][i].drawDate, a[1..][j].drawDate) {
      assert a[1..][i] == a[i + 1] && a[1..][j] == a[j + 1];
    }
  }

  /** Sorted arrangements of the same date-keyed rows start with the same row. */
  lemma SortedHeadsAgree(a: seq<Row>, b: seq<Row>)
    requires SortedByDate(a) && SortedByDate(b) && multiset(a) == multiset(b) && DateKeyed(a)
    requires a != [] && b != []
    ensures a[0] == b[0]
  {
    assert a[0] in multiset(b) && b[0] in multiset(a);
    var i :| 0 <= i < |b| && b[i] == a[0];
    var j :| 0 <= j < |a| && a[j] == b[0];
    if i != 0 && j != 0 {
      assert DateLe(b[0].drawDate, b[i].drawDate) && DateLe(a[0].drawDate, a[j].drawDate);
      DateLeAntisymmetric(a[0].drawDate, b[0].drawDate);
      assert a[0].drawDate == a[j].drawDate;
    }
  }

  /** Removing equal heads from two permutations of each other leaves permutations. */
  lemma TailsPermute(a: seq<Row>, b: seq<Row>)
    requires multiset(a) == multiset(b) && a != [] && b != [] && a[0] == b[0]
    ensures multiset(a[1..]) == multiset(b[1..])
  {
    assert a == [a[0]] + a[1..] && b == [b[0]] + b[1..];
    assert multiset(a[1..]) == multiset(a) - multiset{a[0]};
    assert multiset(b[1..]) == multiset(b) - multiset{b[0]};
  }

  lemma DateKeyedTail(a: seq<Row>)
    requires DateKeyed(a) && a != []
    ensures DateKeyed(a[1..])
  {
    assert forall k :: 0 <= k < |a| - 1 ==> a[1..][k] == a[k + 1];
  }

  /** Two sorted arrangements of the same date-keyed rows are the same sequence. */
  lemma {:induction false} SortedArrangementIsUnique(a: seq<Row>, b: seq<Row>)
    requires SortedByDate(a) && SortedByDate(b) && multiset(a) == multiset(b) && DateKeyed(a)
    ensures a == b
    decreases |a|
  {
    assert |a| == |multiset(a)| == |multiset(b)| == |b|;
    if a != [] {
      SortedHeadsAgree(a, b);
      TailsPermute(a, b);
      DateKeyedTail(a);
      SortedTail(a);
      SortedTail(b);
      SortedArrangementIsUnique(a[1..], b[1..]);
      assert forall k :: 0 <= k < |a| ==> a[k] == if k == 0 then a[0] else a[1..][k - 1];
    }
  }

  /**
   * Re-running an analyzer on a reordering of the same date-keyed rows sees the same
   * sorted copy, so it returns the same result.
   */
  lemma SortIgnoresInputOrder(rows1: seq<Row>, rows2: seq<Row>)
    requires multiset(rows1) == multiset(rows2) && DateKeyed(rows1)
    ensures SortByDate(rows1) == SortByDate(rows2)
  {
    DateKeyedPermutation(rows1, SortByDate(rows1));
    SortedArrangementIsUnique(SortByDate(rows1), SortByDate(rows2));
  }

  // ---------------------------------------------------------------- participating draws

  /** One participating draw of one company: its date and whether the value wins. */
  datatype Draw = Draw(date: string, win: bool)

  function DrawAt(row: Row, c: Company): Draw
  {
    Draw(row.drawDate, HasDuplicateInLastThreeDigits(ValueOf(row, c)))
  }

  /** The draws of company c in row order, skipping the rows where c did not participate. */
  function DrawsOf(rows: seq<Row>, c: Company): (ds: seq<Draw>)
    ensures |ds| <= |rows|
  {
    if rows == [] then []
    else DrawsOf(rows[..|rows| - 1], c) + (if Participates(rows[|rows| - 1], c) then [DrawAt(rows[|rows| - 1], c)] else [])
  }

  /** Scanning one row further adds that row's draw when the company took part in it ... */
  lemma DrawsOfSnoc(rows: seq<Row>, i: nat, c: Company)
    requires i < |rows| && Participates(rows[i], c)
    ensures DrawsOf(rows[..i + 1], c) == DrawsOf(rows[..i], c) + [DrawAt(rows[i], c)]
  {
    assert rows[..i + 1][..i] == rows[..i];
  }

  /** ... and adds nothing when it did not. */
  lemma DrawsOfSkip(rows: seq<Row>, i: nat, c: Company)
    requires i < |rows| && !Participates(rows[i], c)
    ensures DrawsOf(rows[..i + 1], c) == DrawsOf(rows[..i], c)
  {
    assert rows[..i + 1][..i] == rows[..i];
    assert DrawsOf(rows[..i], c) + [] == DrawsOf(rows[..i], c);
  }

  /** Scanning rows a then rows b sees the draws of a, then those of b. */
  lemma {:induction false} DrawsOfAppend(a: seq<Row>, b: seq<Row>, c: Company)
    ensures DrawsOf(a + b, c) == DrawsOf(a, c) + DrawsOf(b, c)
    decreases |b|
  {
    if b != [] {
      var b' := b[..|b| - 1];
      assert (a + b)[..|a + b| - 1] == a + b';
      DrawsOfAppend(a, b', c);
    } else {
      assert a + b == a;
    }
  }

  /** A row in which company c has no value changes nothing about c's draws, wherever it is inserted. */
  lemma SkippedRowChangesNothing(before: seq<Row>, row: Row, after: seq<Row>, c: Company)
    requires !Participates(row, c)
    ensures DrawsOf(before + [row] + after, c) == DrawsOf(before + after, c)
  {
    DrawsOfAppend(before + [row], after, c);
    DrawsOfAppend(before, [row], c);
    DrawsOfAppend(before, after, c);
    assert [row][..0] == [];
  }

  /** The number of trailing losing draws. */
  function TrailingLosses(ds: seq<Draw>): (n: nat)
    ensures n <= |ds|
  {
    if ds == [] || ds[|ds| - 1].win then 0 else TrailingLosses(ds[..|ds| - 1]) + 1
  }

  // ---------------------------------------------------------------- runs

  /** A streak: consecutive participating draws sharing one classification. */
  datatype Run = Run(win: bool, draws: seq<Draw>)

  /** The runs before the current (last) one: those the scan has already closed. */
  function Closed(rs: seq<Run>): seq<Run>
  {
    if rs == [] then [] else rs[..|rs| - 1]
  }

  /** The draws of the runs, one run after the other. */
  function Flatten(rs: seq<Run>): seq<Draw>
  {
    if rs == [] then [] else Flatten(rs[..|rs| - 1]) + rs[|rs| - 1].draws
  }

  /**
   * rs is the partition of ds into maximal runs: concatenated, the runs give back ds; no run
   * is empty; every draw of a run has the run's classification; neighbouring runs differ.
   */
  ghost predicate IsRunPartition(ds: seq<Draw>, rs: seq<Run>)
  {
    && Flatten(rs) == ds
    && (forall k :: 0 <= k < |rs| ==> |rs[k].draws| >= 1)
    && (forall k, j :: 0 <= k < |rs| && 0 <= j < |rs[k].draws| ==> rs[k].draws[j].win == rs[k].win)
    && (forall k :: 0 <= k < |rs| - 1 ==> rs[k].win != rs[k + 1].win)
  }

  /**
   * The runs the scan closes, in order: a draw of the current run's classification extends
   * it, any other draw starts a new run.
   */
  function RunsOf(ds: seq<Draw>): (rs: seq<Run>)
    ensures |rs| <= |ds|
    ensures rs == [] <==> ds == []
  {
    if ds == [] then []
    else
      var rs := RunsOf(ds[..|ds| - 1]);
      var d := ds[|ds| - 1];
      if rs != [] && rs[|rs| - 1].win == d.win then rs[..|rs| - 1] + [Run(d.win, rs[|rs| - 1].draws + [d])]
      else rs + [Run(d.win, [d])]
  }

  lemma RunsOfSnoc(ds: seq<Draw>, d: Draw)
    ensures RunsOf(ds + [d]) ==
      var rs := RunsOf(ds);
      if rs != [] && rs[|rs| - 1].win == d.win then rs[..|rs| - 1] + [Run(d.win, rs[|rs| - 1].draws + [d])]
      else rs + [Run(d.win, [d])]
  {
    assert (ds + [d])[..|ds|] == ds;
  }

  /**
   * One more draw either lengthens the last run (same classification) or closes it and starts
   * a run of one; the new last run has the draw's classification.
   */
  lemma RunsOfStep(ds: seq<Draw>, d: Draw)
    ensures var rs, rs' := RunsOf(ds), RunsOf(ds + [d]);
      && rs' != [] && rs'[|rs'| - 1].win == d.win && rs'[|rs'| - 1].draws != []
      && (if rs != [] && rs[|rs| - 1].win == d.win
          then && Closed(rs') == Closed(rs) && |rs'[|rs'| - 1].draws| == |rs[|rs| - 1].draws| + 1
               && (rs[|rs| - 1].draws != [] ==> rs'[|rs'| - 1].draws[0] == rs[|rs| - 1].draws[0])
          else Closed(rs') == rs && rs'[|rs'| - 1].draws == [d])
  {
    RunsOfSnoc(ds, d);
    var rs := RunsOf(ds);
    if rs != [] && rs[|rs| - 1].win == d.win {
      var n := |rs|;
      assert (rs[..n - 1] + [Run(d.win, rs[n - 1].draws + [d])])[..n - 1] == rs[..n - 1];
    } else {
      assert (rs + [Run(d.win, [d])])[..|rs|] == rs;
    }
  }

  lemma FlattenSnoc(rs: seq<Run>, r: Run)
    ensures Flatten(rs + [r]) == Flatten(rs) + r.draws
  {
    assert (rs + [r])[..|rs|] == rs;
  }

  /** Lengthening the last run by d appends d to the joined draws. */
  lemma FlattenExtendLast(rs: seq<Run>, d: Draw)
    requires rs != []
    ensures Flatten(rs[..|rs| - 1] + [Run(d.win, rs[|rs| - 1].draws + [d])]) == Flatten(rs) + [d]
  {
    FlattenSnoc(rs[..|rs| - 1], Run(d.win, rs[|rs| - 1].draws + [d]));
  }

  /** Joining the scan's runs back together gives the draws. */
  lemma {:induction false} RunsOfFlatten(ds: seq<Draw>)
    ensures Flatten(RunsOf(ds)) == ds
  {
    if ds != [] {
      var ds', d := ds[..|ds| - 1], ds[|ds| - 1];
      assert ds == ds' + [d];
      RunsOfFlatten(ds');
      var rs' := RunsOf(ds');
      RunsOfSnoc(ds', d);
      if rs' != [] && rs'[|rs'| - 1].win == d.win {
        FlattenExtendLast(rs', d);
      } else {
        FlattenSnoc(rs', Run(d.win, [d]));
      }
    }
  }

  /** One more draw, run by run: the runs before the last stay, and the last is lengthened or new. */
  lemma RunsOfStepAt(ds: seq<Draw>, d: Draw)
    ensures var rs, rs' := RunsOf(ds), RunsOf(ds + [d]);
      var grows := rs != [] && rs[|rs| - 1].win == d.win;
      && |rs'| == (if grows then |rs| else |rs| + 1)
      && (forall k :: 0 <= k < |rs'| - 1 ==> rs'[k] == rs[k])
      && rs'[|rs'| - 1] == (if grows then Run(d.win, rs[|rs| - 1].draws + [d]) else Run(d.win, [d]))
  {
    RunsOfSnoc(ds, d);
  }

  /** No run of the scan is empty. */
  lemma {:induction false} RunsOfNonEmpty(ds: seq<Draw>)
    ensures forall k :: 0 <= k < |RunsOf(ds)| ==> |RunsOf(ds)[k].draws| >= 1
  {
    if ds != [] {
      var ds', d := ds[..|ds| - 1], ds[|ds| - 1];
      assert ds == ds' + [d];
      RunsOfNonEmpty(ds');
      RunsOfStepAt(ds', d);
    }
  }

  /** Every draw of the run has the run's classification. */
  ghost predicate Uniform(r: Run)
  {
    forall j :: 0 <= j < |r.draws| ==> r.draws[j].win == r.win
  }

  lemma UniformSnoc(r: Run, d: Draw)
    requires Uniform(r) && r.win == d.win
    ensures Uniform(Run(d.win, r.draws + [d]))
  {
    var ds := r.draws + [d];
    assert forall j :: 0 <= j < |r.draws| ==> ds[j] == r.draws[j];
  }

  /** Each run's draws share its classification. */
  lemma {:induction false} RunsOfUniform(ds: seq<Draw>)
    ensures forall k :: 0 <= k < |RunsOf(ds)| ==> Uniform(RunsOf(ds)[k])
  {
    if ds != [] {
      var ds', d := ds[..|ds| - 1], ds[|ds| - 1];
      RunsOfUniform(ds');
      RunsOfStepAt(ds', d);
      UniformStep(RunsOf(ds'), RunsOf(ds' + [d]), d);
      assert ds == ds' + [d];
    }
  }

  /** The step of RunsOfUniform, on the runs alone. */
  lemma UniformStep(rs: seq<Run>, rs': seq<Run>, d: Draw)
    requires forall k :: 0 <= k < |rs| ==> Uniform(rs[k])
    requires var grows := rs != [] && rs[|rs| - 1].win == d.win;
      && |rs'| == (if grows then |rs| else |rs| + 1)
      && (forall k :: 0 <= k < |rs'| - 1 ==> rs'[k] == rs[k])
      && rs'[|rs'| - 1] == (if grows then Run(d.win, rs[|rs| - 1].draws + [d]) else Run(d.win, [d]))
    ensures forall k :: 0 <= k < |rs'| ==> Uniform(rs'[k])
  {
    if rs != [] && rs[|rs| - 1].win == d.win {
      UniformSnoc(rs[|rs| - 1], d);
    }
  }

  /** Neighbouring runs of the scan have different classifications. */
  lemma {:induction false} RunsOfAlternate(ds: seq<Draw>)
    ensures forall k :: 0 <= k < |RunsOf(ds)| - 1 ==> RunsOf(ds)[k].win != RunsOf(ds)[k + 1].win
  {
    if ds != [] {
      var ds', d := ds[..|ds| - 1], ds[|ds| - 1];
      assert ds == ds' + [d];
      RunsOfAlternate(ds');
      RunsOfStepAt(ds', d);
    }
  }

  /** The scan's runs are the maximal-run partition of the draws. */
  lemma RunsOfIsPartition(ds: seq<Draw>)
    ensures IsRunPartition(ds, RunsOf(ds))
  {
    RunsOfFlatten(ds);
    RunsOfNonEmpty(ds);
    RunsOfUniform(ds);
    RunsOfAlternate(ds);
  }

  /** Without its last run, a partition partitions the draws before that run. */
  lemma PartitionPrefix(ds: seq<Draw>, rs: seq<Run>)
    requires IsRunPartition(ds, rs) && rs != []
    ensures |rs[|rs| - 1].draws| <= |ds|
    ensures IsRunPartition(ds[..|ds| - |rs[|rs| - 1].draws|], rs[..|rs| - 1])
    ensures ds == ds[..|ds| - |rs[|rs| - 1].draws|] + rs[|rs| - 1].draws
  {
    var rs', r := rs[..|rs| - 1], rs[|rs| - 1];
    assert rs == rs' + [r];
    FlattenSnoc(rs', r);
    assert ds[..|ds| - |r.draws|] == Flatten(rs');
  }

  /** With two runs or more, the draw just before the last run has the other classification. */
  lemma DrawBeforeLastRunDiffers(ds: seq<Draw>, rs: seq<Run>)
    requires IsRunPartition(ds, rs) && |rs| >= 2
    ensures var m := |rs[|rs| - 1].draws|; m < |ds| && ds[|ds| - m - 1].win != rs[|rs| - 1].win
  {
    var n, m := |ds|, |rs[|rs| - 1].draws|;
    PartitionPrefix(ds, rs);
    var prefix, rs' := ds[..n - m], rs[..|rs| - 1];
    PartitionPrefix(prefix, rs');
    var p := rs'[|rs'| - 1];
    assert p == rs[|rs| - 2];
    assert ds[n - m - 1] == prefix[n - m - 1] == p.draws[|p.draws| - 1];
  }

  /** In two maximal-run partitions of the same draws, the first's last run is not the shorter. */
  lemma LastRunNotShorter(ds: seq<Draw>, rs1: seq<Run>, rs2: seq<Run>)
    requires IsRunPartition(ds, rs1) && IsRunPartition(ds, rs2) && rs1 != [] && rs2 != []
    ensures |rs1[|rs1| - 1].draws| >= |rs2[|rs2| - 1].draws|
  {
    var r1, r2 := rs1[|rs1| - 1], rs2[|rs2| - 1];
    var n, m1, m2 := |ds|, |r1.draws|, |r2.draws|;
    PartitionPrefix(ds, rs1);
    PartitionPrefix(ds, rs2);
    assert r1.win == r2.win by {
      assert ds[n - 1] == r1.draws[m1 - 1] == r2.draws[m2 - 1];
    }
    if |rs1| >= 2 {
      DrawBeforeLastRunDiffers(ds, rs1);
      forall t | n - m2 <= t < n ensures ds[t].win == r1.win {
        assert ds[t] == r2.draws[t - (n - m2)];
      }
    } else {
      assert Flatten(rs1[..|rs1| - 1]) == [];
    }
  }

  /** The maximal-run partition of a sequence of draws is unique. */
  lemma {:induction false} RunPartitionIsUnique(ds: seq<Draw>, rs1: seq<Run>, rs2: seq<Run>)
    requires IsRunPartition(ds, rs1) && IsRunPartition(ds, rs2)
    ensures rs1 == rs2
    decreases |ds|
  {
    if rs1 != [] && rs2 != [] {
      var r1, r2 := rs1[|rs1| - 1], rs2[|rs2| - 1];
      LastRunNotShorter(ds, rs1, rs2);
      LastRunNotShorter(ds, rs2, rs1);
      PartitionPrefix(ds, rs1);
      PartitionPrefix(ds, rs2);
      var m := |r1.draws|;
      assert r1.draws == ds[|ds| - m..] == r2.draws;
      assert r1.win == r1.draws[0].win == r2.win;
      RunPartitionIsUnique(ds[..|ds| - m], rs1[..|rs1| - 1], rs2[..|rs2| - 1]);
      assert rs1 == rs1[..|rs1| - 1] + [r1] && rs2 == rs2[..|rs2| - 1] + [r2];
    } else if rs1 != [] {
      PartitionPrefix(ds, rs1);
    } else if rs2 != [] {
      PartitionPrefix(ds, rs2);
    }
  }
}
