/**
 The run of `main` in src/analyze_sam.py (lines 18-77) followed by
 `calculate_accuracy_values` (lines 130-146): for every pivot `i` the read
 mappings are collected from the alignment records of pivot `i` against
 datasets `0 .. n-1` and credited to row `i` of a zero-initialised matrix;
 the accuracy values are then derived from the finished matrix.

 `SpecifiedReport` is the specification, pivot by pivot; `Analyze` is the program,
 proved equal to it; the lemmas state what a finished report holds.
 */
module Analysis {
  import opened ReadNames
  import opened Collector
  import opened Sums
  import opened Aggregator
  import opened Accuracy

  /** What one pivot yields: its row of the matrix and its printed `total_entries`. */
  datatype Pivot = Pivot(row: seq<real>, total: real)

  /** The outcome of a run: the confusion matrix, each pivot's total, and the accuracy values. */
  datatype Report = Report(matrix: seq<seq<real>>, totals: seq<real>, accuracies: seq<Score>)

  /** A table that is well formed lists only names it has entries for. */
  lemma ValidKnown(tab: Table, n: nat)
    requires TableValid(tab, n)
    ensures Known(tab, tab.order)
  {
    forall q | 0 <= q < |tab.order| ensures tab.order[q] in tab.entries {
      assert tab.order[q] in tab.order;
    }
  }

  /** The table a successful collection of one pivot's records produces is well formed. */
  lemma PivotTableValid(parse: string -> Option<int>, mode: Mode, t: int, recs: seq<seq<Record>>)
    requires Collect(mode, t, Stream(parse, recs)).Ok?
    ensures TableValid(Collect(mode, t, Stream(parse, recs)).value, |recs|)
    ensures WeightsValid(mode, Collect(mode, t, Stream(parse, recs)).value)
    ensures Known(Collect(mode, t, Stream(parse, recs)).value, Collect(mode, t, Stream(parse, recs)).value.order)
  {
    StreamDatasets(parse, recs);
    CollectValid(mode, t, Stream(parse, recs), |recs|);
    ValidKnown(Collect(mode, t, Stream(parse, recs)).value, |recs|);
  }

  /** Pivot `recs` (its records against every dataset): row and total from its read mappings. */
  function PivotOf(parse: string -> Option<int>, mode: Mode, t: int, recs: seq<seq<Record>>, n: nat): (r: Result<Pivot>)
    ensures r.Ok? ==> |r.value.row| == n
  {
    var s := Stream(parse, recs);
    if Collect(mode, t, s).Err? then Err(Collect(mode, t, s).error)
    else
      var tab := Collect(mode, t, s).value;
      PivotTableValid(parse, mode, t, recs);
      Ok(Pivot(Contribution(mode, tab, tab.order, n), TotalWeight(mode, tab, tab.order)))
  }

  /** Pivots `0 .. m-1` in order; the first failure ends the run. */
  function Pivots(parse: string -> Option<int>, mode: Mode, t: int, sams: seq<seq<seq<Record>>>, n: nat, m: nat): (r: Result<seq<Pivot>>)
    requires m <= |sams|
    ensures r.Ok? ==> |r.value| == m && forall i :: 0 <= i < m ==> |r.value[i].row| == n
    decreases m
  {
    if m == 0 then Ok([])
    else
      var before := Pivots(parse, mode, t, sams, n, m - 1);
      if before.Err? then before
      else
        var p := PivotOf(parse, mode, t, sams[m - 1], n);
        if p.Err? then Err(p.error) else Ok(before.value + [p.value])
  }

  /** The report assembled from the pivots of an `n`-dataset run. */
  function ReportOf(ps: seq<Pivot>, n: nat): (r: Report)
    requires |ps| == n && forall i :: 0 <= i < n ==> |ps[i].row| == n
    ensures IsSquare(r.matrix, n) && |r.totals| == n && |r.accuracies| == n
  {
    var matrix := seq(n, i requires 0 <= i < n => ps[i].row);
    Report(matrix, seq(n, i requires 0 <= i < n => ps[i].total), seq(n, k requires 0 <= k < n => ScoreOf(matrix, n, k)))
  }

  /** The whole run over the records `sams[i][j]` of pivot `i` against dataset `j`. */
  function SpecifiedReport(parse: string -> Option<int>, mode: Mode, t: int, sams: seq<seq<seq<Record>>>, n: nat): Result<Report>
    requires |sams| == n
  {
    var ps := Pivots(parse, mode, t, sams, n, n);
    if ps.Err? then Err(ps.error) else Ok(ReportOf(ps.value, n))
  }

  /** A failed pivot fails the whole run with its error. */
  lemma {:induction false} PivotsErrorSticks(parse: string -> Option<int>, mode: Mode, t: int, sams: seq<seq<seq<Record>>>, n: nat, m: nat, m': nat)
    requires m <= m' <= |sams|
    requires Pivots(parse, mode, t, sams, n, m).Err?
    ensures Pivots(parse, mode, t, sams, n, m') == Pivots(parse, mode, t, sams, n, m)
    decreases m'
  {
    if m < m' {
      PivotsErrorSticks(parse, mode, t, sams, n, m, m' - 1);
    }
  }

  /** A record of pivot `i` against dataset `j` is malformed. */
  ghost predicate HasMalformed(parse: string -> Option<int>, recs: seq<seq<Record>>)
  {
    exists j, k :: 0 <= j < |recs| && 0 <= k < |recs[j]| && parse(recs[j][k].name).None?
  }

  /** A pivot fails exactly when one of its records has a malformed name. */
  lemma PivotFails(parse: string -> Option<int>, mode: Mode, t: int, recs: seq<seq<Record>>, n: nat)
    ensures PivotOf(parse, mode, t, recs, n).Err? <==> HasMalformed(parse, recs)
  {
    var s := Stream(parse, recs);
    CollectFails(mode, t, s);
    if HasMalformed(parse, recs) {
      var j, k :| 0 <= j < |recs| && 0 <= k < |recs[j]| && parse(recs[j][k].name).None?;
      StreamMembers(parse, recs, |recs|, Alignment(recs[j][k].name, parse(recs[j][k].name), j));
    }
    if exists a :: a in s && a.length.None? {
      var a :| a in s && a.length.None?;
      StreamMembers(parse, recs, |recs|, a);
    }
  }

  /** The run fails exactly when some record of some pivot has a malformed name. */
  lemma {:induction false} PivotsFail(parse: string -> Option<int>, mode: Mode, t: int, sams: seq<seq<seq<Record>>>, n: nat, m: nat)
    requires m <= |sams|
    ensures Pivots(parse, mode, t, sams, n, m).Err? <==> exists i :: 0 <= i < m && HasMalformed(parse, sams[i])
    decreases m
  {
    if m > 0 {
      PivotsFail(parse, mode, t, sams, n, m - 1);
      PivotFails(parse, mode, t, sams[m - 1], n);
    }
  }

  /**
   What a finished report holds: every cell is non-negative, row `i` sums to
   the total printed for pivot `i`, and the four accuracy values of every
   index add up to the sum of the whole matrix.
   */
  lemma {:induction false} ReportProperties(parse: string -> Option<int>, mode: Mode, t: int, sams: seq<seq<seq<Record>>>, n: nat)
    requires |sams| == n && forall i :: 0 <= i < n ==> |sams[i]| == n
    requires SpecifiedReport(parse, mode, t, sams, n).Ok?
    ensures var rep := SpecifiedReport(parse, mode, t, sams, n).value;
      && IsSquare(rep.matrix, n)
      && (forall i, c :: 0 <= i < n && 0 <= c < n ==> rep.matrix[i][c] >= 0.0)
      && (forall i :: 0 <= i < n ==> Sum(rep.matrix[i]) == rep.totals[i])
      && (forall k :: 0 <= k < n ==> rep.accuracies[k].tp + rep.accuracies[k].tn + rep.accuracies[k].fp + rep.accuracies[k].fn == Total(rep.matrix))
  {
    var rep := SpecifiedReport(parse, mode, t, sams, n).value;
    forall i | 0 <= i < n
      ensures (forall c :: 0 <= c < n ==> rep.matrix[i][c] >= 0.0) && Sum(rep.matrix[i]) == rep.totals[i]
    {
      PivotRowProperties(parse, mode, t, sams, n, n, i);
    }
    forall k | 0 <= k < n
      ensures rep.accuracies[k].tp + rep.accuracies[k].tn + rep.accuracies[k].fp + rep.accuracies[k].fn == Total(rep.matrix)
    {
      ScoreSums(rep.matrix, n, k);
    }
  }

  /** Row `i` of a successful run is pivot `i`'s contribution: non-negative, summing to its total. */
  lemma {:induction false} PivotRowProperties(parse: string -> Option<int>, mode: Mode, t: int, sams: seq<seq<seq<Record>>>, n: nat, m: nat, i: nat)
    requires m <= |sams| && i < m && forall j :: 0 <= j < m ==> |sams[j]| == n
    requires Pivots(parse, mode, t, sams, n, m).Ok?
    ensures forall c :: 0 <= c < n ==> Pivots(parse, mode, t, sams, n, m).value[i].row[c] >= 0.0
    ensures Sum(Pivots(parse, mode, t, sams, n, m).value[i].row) == Pivots(parse, mode, t, sams, n, m).value[i].total
    decreases m
  {
    if i < m - 1 {
      PivotRowProperties(parse, mode, t, sams, n, m - 1, i);
    } else {
      var recs := sams[i];
      var tab := Collect(mode, t, Stream(parse, recs)).value;
      PivotTableValid(parse, mode, t, recs);
      ContributionSum(mode, tab, tab.order, n);
      ContributionNonNegative(mode, tab, tab.order, n);
    }
  }

  /** A pivot whose records collect into `tab` adds its row and total to the pivots before it. */
  lemma PivotsNext(parse: string -> Option<int>, mode: Mode, t: int, sams: seq<seq<seq<Record>>>, n: nat, i: nat, ps: seq<Pivot>, tab: Table)
    requires i < |sams|
    requires Pivots(parse, mode, t, sams, n, i) == Ok(ps)
    requires Collect(mode, t, Stream(parse, sams[i])) == Ok(tab)
    ensures Known(tab, tab.order)
    ensures Pivots(parse, mode, t, sams, n, i + 1) == Ok(ps + [Pivot(Contribution(mode, tab, tab.order, n), TotalWeight(mode, tab, tab.order))])
  {
    PivotTableValid(parse, mode, t, sams[i]);
  }

  /** A pivot whose records fail to collect ends the run with that failure. */
  lemma PivotAborts(parse: string -> Option<int>, mode: Mode, t: int, sams: seq<seq<seq<Record>>>, n: nat, i: nat, ps: seq<Pivot>)
    requires i < |sams| == n
    requires Pivots(parse, mode, t, sams, n, i) == Ok(ps)
    requires Collect(mode, t, Stream(parse, sams[i])).Err?
    ensures SpecifiedReport(parse, mode, t, sams, n) == Err(Collect(mode, t, Stream(parse, sams[i])).error)
  {
    PivotsErrorSticks(parse, mode, t, sams, n, i + 1, n);
  }

  /** The report of a run whose pivots all succeeded, given its matrix and accuracy values. */
  lemma ReportAssembled(parse: string -> Option<int>, mode: Mode, t: int, sams: seq<seq<seq<Record>>>, n: nat, ps: seq<Pivot>,
                        matrix: seq<seq<real>>, totals: seq<real>, accuracies: seq<Score>)
    requires |sams| == n
    requires Pivots(parse, mode, t, sams, n, n) == Ok(ps)
    requires |matrix| == n && forall p :: 0 <= p < n ==> matrix[p] == ps[p].row
    requires |totals| == n && forall p :: 0 <= p < n ==> totals[p] == ps[p].total
    requires Covers(matrix, n)
    requires |accuracies| == n && forall k :: 0 <= k < n ==> accuracies[k] == ScoreOf(matrix, n, k)
    ensures SpecifiedReport(parse, mode, t, sams, n) == Ok(Report(matrix, totals, accuracies))
  {
    var rep := ReportOf(ps, n);
    assert matrix == rep.matrix;
    assert totals == rep.totals;
    assert accuracies == rep.accuracies;
  }

  /**
   One pass of the pivot loop (lines 30-77): pivot `i`'s read mappings are
   collected and credited to row `i` of the matrix, which was still zero.
   */
  method RunPivot(parse: string -> Option<int>, cm: ConfusionMatrix, i: nat, mode: Mode, t: int, sams: seq<seq<seq<Record>>>, ghost ps: seq<Pivot>)
    returns (r: Result<Pivot>)
    requires cm.Valid() && i < |sams| == cm.n && |sams[i]| == cm.n
    requires Pivots(parse, mode, t, sams, cm.n, i) == Ok(ps)
    requires forall c :: 0 <= c < cm.n ==> cm.cells[i, c] == 0.0
    modifies cm.cells
    ensures r.Err? ==> SpecifiedReport(parse, mode, t, sams, cm.n) == Err(r.error)
    ensures r.Ok? ==> Pivots(parse, mode, t, sams, cm.n, i + 1) == Ok(ps + [r.value])
    ensures r.Ok? ==> |r.value.row| == cm.n && forall c :: 0 <= c < cm.n ==> cm.cells[i, c] == r.value.row[c]
    ensures forall p, c :: 0 <= p < cm.n && 0 <= c < cm.n && p != i ==> cm.cells[p, c] == old(cm.cells[p, c])
  {
    var n := cm.n;
    var readMappings := BuildReadMappings(parse, mode, t, sams[i]);
    if readMappings.Err? {
      PivotAborts(parse, mode, t, sams, n, i, ps);
      return Err(readMappings.error);
    }
    var tab := readMappings.value;
    PivotsNext(parse, mode, t, sams, n, i, ps, tab);
    PivotTableValid(parse, mode, t, sams[i]);
    var total := cm.AddPivot(i, mode, tab);
    r := Ok(Pivot(Contribution(mode, tab, tab.order, n), total));
  }

  /**
   The pivot loop of `main` (lines 29-77) on a zero matrix: each pivot's read
   mappings are collected and credited to its row; the first malformed read
   name aborts. Returns the totals of the pivots and, in ghost form, the
   pivots the matrix now holds.
   */
  method FillMatrix(parse: string -> Option<int>, cm: ConfusionMatrix, mode: Mode, t: int, sams: seq<seq<seq<Record>>>) returns (r: Result<seq<real>>, ghost ps: seq<Pivot>)
    requires cm.Valid() && |sams| == cm.n && forall i :: 0 <= i < cm.n ==> |sams[i]| == cm.n
    requires forall p, c :: 0 <= p < cm.n && 0 <= c < cm.n ==> cm.cells[p, c] == 0.0
    modifies cm.cells
    ensures r.Err? ==> SpecifiedReport(parse, mode, t, sams, cm.n) == Err(r.error)
    ensures r.Ok? ==> Pivots(parse, mode, t, sams, cm.n, cm.n) == Ok(ps)
    ensures r.Ok? ==> |r.value| == cm.n && forall p :: 0 <= p < cm.n ==> r.value[p] == ps[p].total
    ensures r.Ok? ==> forall p, c :: 0 <= p < cm.n && 0 <= c < cm.n ==> cm.cells[p, c] == ps[p].row[c]
  {
    var n := cm.n;
    var totals: seq<real> := [];
    ps := [];
    var i := 0;
    while i < n
      invariant 0 <= i <= n
      invariant Pivots(parse, mode, t, sams, n, i) == Ok(ps)
      invariant |totals| == i && forall p :: 0 <= p < i ==> totals[p] == ps[p].total
      invariant forall p, c :: 0 <= p < i && 0 <= c < n ==> cm.cells[p, c] == ps[p].row[c]
      invariant forall p, c :: i <= p < n && 0 <= c < n ==> cm.cells[p, c] == 0.0
    {
      var pivot := RunPivot(parse, cm, i, mode, t, sams, ps);
      if pivot.Err? {
        return Err(pivot.error), ps;
      }
      totals := totals + [pivot.value.total];
      ps := ps + [pivot.value];
      i := i + 1;
    }
    r := Ok(totals);
  }

  /**
   The program: the matrix starts at zero (line 18), the pivots fill it
   (lines 29-77), and the accuracy values are computed from the result (lines
   130-146). The first malformed read name aborts the run.
   */
  method Analyze(mode: Mode, t: int, sams: seq<seq<seq<Record>>>, n: nat) returns (r: Result<Report>)
    requires |sams| == n && forall i :: 0 <= i < n ==> |sams[i]| == n
    ensures r == SpecifiedReport(GroundTruthLength, mode, t, sams, n)
  {
    var cm := new ConfusionMatrix(n);
    var filled, ps := FillMatrix(GroundTruthLength, cm, mode, t, sams);
    if filled.Err? {
      return Err(filled.error);
    }
    var matrix := cm.Rows();
    var accuracies := CalculateAccuracyValues(cm.cells, n);
    forall p | 0 <= p < n ensures matrix[p] == ps[p].row {
      assert forall c :: 0 <= c < n ==> matrix[p][c] == ps[p].row[c];
    }
    ReportAssembled(GroundTruthLength, mode, t, sams, n, ps, matrix, filled.value, accuracies);
    r := Ok(Report(matrix, filled.value, accuracies));
  }
}
