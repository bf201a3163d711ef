/**
 * `filter_above_average` (app.py lines 44-78), which updates the uploaded
 * table in place and then builds the subset and its aggregates, and the
 * sequence of core calls the upload handler makes on its result.
 */
module Pipeline {
  import opened Table
  import opened Normalization
  import opened Scoring
  import opened Threshold
  import opened Aggregates
  import opened Metrics

  /** The tuple `filter_above_average` returns. */
  datatype Summary = Summary(
    above: seq<ScoredRecord>,         // above_average_performance
    average: Option<real>,            // average_score (None: the NaN of an empty frame)
    aboveIds: seq<Cell>,              // above_average_ids
    maleCount: nat,                   // male_count
    femaleCount: nat,                 // female_count
    totalAbove: nat,                  // total_above_average
    maxCandidate: Option<ScoredRecord>,  // max_score_candidate (None: empty head(1))
    departmentCounts: map<Cell, nat>  // department_performance
  )

  /** `out` is what lines 55-74 compute from the scored frame `t`. */
  ghost predicate Summarizes(t: seq<ScoredRecord>, out: Summary) {
    && out.average == MeanScore(t)
    && out.above == AboveAverage(t)
    && out.aboveIds == Ids(out.above)
    && out.totalAbove == |out.above|
    && out.maleCount == CountGender(t, "M")
    && out.femaleCount == CountGender(t, "F")
    && out.departmentCounts == DeptHistogram(out.above)
    && (out.maxCandidate.None? <==> out.above == [])
    && (out.maxCandidate.Some? ==> IsMaxCandidate(out.above, out.maxCandidate.value))
  }

  /** `df['Performance_score'].mean()` (line 55). */
  method Mean(t: seq<ScoredRecord>) returns (average: Option<real>)
    ensures average == MeanScore(t)
  {
    var total := 0.0;
    for i := 0 to |t|
      invariant total == SumScores(t[..i])
    {
      assert t[..i + 1][..i] == t[..i];
      total := total + t[i].score;
    }
    assert t[..|t|] == t;
    average := if |t| == 0 then None else Some(total / |t| as real);
  }

  /** `df[df['Performance_score'] > average]` (line 58). */
  method SelectAbove(t: seq<ScoredRecord>, average: real) returns (above: seq<ScoredRecord>)
    ensures above == StrictlyAbove(t, average)
  {
    above := [];
    for i := 0 to |t|
      invariant above == StrictlyAbove(t[..i], average)
    {
      assert t[..i + 1][..i] == t[..i];
      if t[i].score > average {
        above := above + [t[i]];
      }
    }
    assert t[..|t|] == t;
  }

  /** `df[df['gender'] == g].shape[0]` (lines 61-62). */
  method CountByGender(t: seq<ScoredRecord>, g: string) returns (n: nat)
    ensures n == CountGender(t, g)
  {
    n := 0;
    for i := 0 to |t|
      invariant n == CountGender(t[..i], g)
    {
      assert t[..i + 1][..i] == t[..i];
      if t[i].rec.gender == Text(g) {
        n := n + 1;
      }
    }
    assert t[..|t|] == t;
  }

  /** `above_average_performance['Employee_ID'].tolist()` (line 65). */
  method CollectIds(s: seq<ScoredRecord>) returns (ids: seq<Cell>)
    ensures ids == Ids(s)
  {
    ids := [];
    for i := 0 to |s|
      invariant ids == Ids(s[..i])
    {
      assert s[..i + 1][..i] == s[..i];
      ids := ids + [s[i].rec.id];
    }
    assert s[..|s|] == s;
  }

  /**
   * `sort_values(by='Performance_score', ascending=False).head(1)` (line 71):
   * nothing for an empty subset, otherwise a row of the subset with its top
   * score. Which of several tied rows is picked is not promised.
   */
  method MaxScoreCandidate(s: seq<ScoredRecord>) returns (best: Option<ScoredRecord>)
    ensures best.None? <==> s == []
    ensures best.Some? ==> IsMaxCandidate(s, best.value)
  {
    best := None;
    for i := 0 to |s|
      invariant best.None? <==> i == 0
      invariant best.Some? ==> best.value in s[..i]
      invariant best.Some? ==> forall j :: 0 <= j < i ==> s[j].score <= best.value.score
    {
      if best.None? || s[i].score > best.value.score {
        best := Some(s[i]);
      }
    }
    assert s[..|s|] == s;
  }

  /** `groupby('Department').size()` (line 74). */
  method CountByDepartment(s: seq<ScoredRecord>) returns (counts: map<Cell, nat>)
    ensures counts == DeptHistogram(s)
  {
    counts := map[];
    for i := 0 to |s|
      invariant counts == DeptHistogram(s[..i])
    {
      assert s[..i + 1][..i] == s[..i];
      var d := s[i].rec.department;
      if d != Absent {
        counts := counts[d := (if d in counts then counts[d] else 0) + 1];
      }
    }
    assert s[..|s|] == s;
  }

  /** Lines 55-74 over the scored frame. */
  method Summarize(t: seq<ScoredRecord>) returns (out: Summary)
    ensures Summarizes(t, out)
  {
    var average := Mean(t);
    var above: seq<ScoredRecord> := [];
    if average.Some? {
      above := SelectAbove(t, average.value);
    }
    var male := CountByGender(t, "M");
    var female := CountByGender(t, "F");
    var ids := CollectIds(above);
    var best := MaxScoreCandidate(above);
    var counts := CountByDepartment(above);
    out := Summary(above, average, ids, male, female, |above|, best, counts);
  }

  /**
   * Lines 46 and 49: the KPI column is recoded and null experience filled
   * with 0, row by row, in the caller's table.
   */
  method NormalizeInPlace(df: array<Record>)
    modifies df
    ensures df[..] == NormalizeAll(old(df[..]))
  {
    for i := 0 to df.Length
      invariant forall j :: 0 <= j < i ==> df[j] == NormalizeRecord(old(df[j]))
      invariant forall j :: i <= j < df.Length ==> df[j] == old(df[j])
    {
      df[i] := NormalizeRecord(df[i]);
    }
    assert forall j :: 0 <= j < df.Length ==> df[..][j] == NormalizeAll(old(df[..]))[j];
  }

  /** Line 52: the Performance_score column, one independent score per row. */
  method ScoreColumn(rows: seq<Record>) returns (table: seq<ScoredRecord>)
    ensures table == ScoreAll(rows)
  {
    table := [];
    for i := 0 to |rows|
      invariant |table| == i
      invariant forall j :: 0 <= j < i ==> table[j] == Scored(rows[j], Score(rows[j]))
    {
      table := table + [Scored(rows[i], Score(rows[i]))];
    }
  }

  /**
   * `filter_above_average`: normalises the table in place (lines 46, 49),
   * adds the score column (line 52) and summarises the scored table
   * (lines 55-74).
   */
  method FilterAboveAverage(df: array<Record>) returns (table: seq<ScoredRecord>, out: Summary)
    modifies df
    ensures df[..] == NormalizeAll(old(df[..]))
    ensures table == ScoreAll(df[..])
    ensures Summarizes(table, out)
  {
    NormalizeInPlace(df);
    table := ScoreColumn(df[..]);
    out := Summarize(table);
  }

  /** The core results the upload handler passes to the result page. */
  datatype Report = Report(
    summary: Summary,
    highest: Option<(Cell, Cell)>,                 // highest_employee_id, highest_department
    kpiByDepartment: Result<map<Cell, real>>,     // kpis_department
    metrics: Result<KpiScores>                     // precision, recall, f1
  )

  /**
   * The core calls of the upload handler (lines 107, 110, 121, 157). The
   * per-department KPI sum reads the table after `filter_above_average`
   * has recoded it in place, so it sums the 0/1 values of the Y/N flags.
   */
  method Assess(df: array<Record>) returns (report: Report)
    modifies df
    ensures df[..] == NormalizeAll(old(df[..]))
    ensures Summarizes(ScoreAll(df[..]), report.summary)
    ensures report.highest == HighestPerformer(report.summary.above)
    ensures report.kpiByDepartment == KpiByDepartment(ScoreAll(NormalizeAll(old(df[..]))))
    ensures report.metrics == KpiMetrics(report.summary.above)
  {
    var table, summary := FilterAboveAverage(df);
    report := Report(summary, HighestPerformer(summary.above), KpiByDepartment(table), KpiMetrics(summary.above));
  }

  /** A raw flag column of Y, N or blank cells turns into 1, 0 or blank KPI values. */
  lemma YesNoBecomesBinary(rows: seq<Record>)
    requires forall i :: 0 <= i < |rows| ==> rows[i].kpi in {Text("Y"), Text("N"), Absent}
    ensures forall i :: 0 <= i < |ScoreAll(NormalizeAll(rows))| ==>
              var k := ScoreAll(NormalizeAll(rows))[i].rec.kpi;
              k == (if rows[i].kpi == Text("Y") then Num(1.0) else if rows[i].kpi == Text("N") then Num(0.0) else Absent)
  {
  }

  /**
   * On a Y/N/blank flag column the per-department KPI sum of line 121
   * succeeds and gives, for each department, the number of its employees
   * flagged Y.
   */
  lemma KpiSumCountsYes(rows: seq<Record>)
    requires forall i :: 0 <= i < |rows| ==> rows[i].kpi in {Text("Y"), Text("N"), Absent}
    ensures var t := ScoreAll(NormalizeAll(rows));
            KpiByDepartment(t).Ok? &&
            forall d :: d in KpiByDepartment(t).value ==> KpiByDepartment(t).value[d] == CountKpiMet(t, d) as real
  {
    YesNoBecomesBinary(rows);
    KpiByDepartmentCountsMet(ScoreAll(NormalizeAll(rows)));
  }

  function Employee(id: real, exp: real, kpi: string, rating: real, soft: real, sup: real, sat: real,
                    gender: string): Record
  {
    Record(Num(id), Num(exp), Text(kpi), Num(rating), Num(soft), Num(sup), Num(sat), Text(gender), Text("Sales"))
  }

  /** Three employees with the Y/N flag still raw. */
  function ScenarioRows(): seq<Record> {
    [Employee(1.0, 10.0, "Y", 5.0, 8.0, 7.0, 9.0, "M"),
     Employee(2.0, 0.0, "N", 2.0, 4.0, 3.0, 2.0, "F"),
     Employee(3.0, 5.0, "Y", 4.0, 6.0, 5.0, 6.0, "M")]
  }

  /** The three scenario employees score 6.5, 2.0 and 4.5. */
  lemma ScenarioScores()
    ensures var t := ScoreAll(NormalizeAll(ScenarioRows()));
            |t| == 3 && t[0].score == 6.5 && t[1].score == 2.0 && t[2].score == 4.5
  {
    var n := NormalizeAll(ScenarioRows());
    assert n[0].kpi == Num(1.0) && n[1].kpi == Num(0.0) && n[2].kpi == Num(1.0);
    ScoreFormula(n[0]);
    ScoreFormula(n[1]);
    ScoreFormula(n[2]);
  }

  /** Any three rows scoring 6.5, 2.0 and 4.5 have mean 13/3, and the first and third are above it. */
  lemma ThreeRowThreshold(t: seq<ScoredRecord>)
    requires |t| == 3 && t[0].score == 6.5 && t[1].score == 2.0 && t[2].score == 4.5
    ensures MeanScore(t) == Some(13.0 / 3.0)
    ensures AboveAverage(t) == [t[0], t[2]]
  {
    assert t[..1] == [t[0]];
    assert t[..2][..1] == t[..1];
    assert t[..|t| - 1] == t[..2];
    assert SumScores(t[..1]) == 6.5;
    assert SumScores(t[..2]) == 8.5;
    assert SumScores(t) == 13.0;
    assert StrictlyAbove(t[..1], 13.0 / 3.0) == [t[0]];
    assert StrictlyAbove(t[..2], 13.0 / 3.0) == [t[0]];
  }

  /**
   * The mean of the scenario is 13/3; the first and third employees are
   * above average, in that order; two are male and one female.
   */
  lemma ScenarioSummary()
    ensures var t := ScoreAll(NormalizeAll(ScenarioRows()));
            && MeanScore(t) == Some(13.0 / 3.0)
            && AboveAverage(t) == [t[0], t[2]]
            && Ids(AboveAverage(t)) == [Num(1.0), Num(3.0)]
            && CountGender(t, "M") == 2 && CountGender(t, "F") == 1
  {
    var t := ScoreAll(NormalizeAll(ScenarioRows()));
    ScenarioScores();
    ThreeRowThreshold(t);
    assert t[0].rec.gender == Text("M") && t[1].rec.gender == Text("F") && t[2].rec.gender == Text("M");
    assert t[..2][..1] == t[..1];
    assert t[..|t| - 1] == t[..2];
    assert CountGender(t[..1], "M") == 1 && CountGender(t[..1], "F") == 0;
    assert CountGender(t[..2], "M") == 1 && CountGender(t[..2], "F") == 1;
  }
}
