/** Counts, lists and extremal rows derived from the scored frame. */
module Aggregates {
  import opened Table

  /** `df[df['gender'] == g].shape[0]`. */
  function CountGender(t: seq<ScoredRecord>, g: string): (n: nat)
    ensures n <= |t|
  {
    if t == [] then 0
    else CountGender(t[..|t| - 1], g) + (if t[|t| - 1].rec.gender == Text(g) then 1 else 0)
  }

  /** Male and female counts never add up to more rows than the frame has. */
  lemma {:induction false} GenderCountsBounded(t: seq<ScoredRecord>)
    ensures CountGender(t, "M") + CountGender(t, "F") <= |t|
  {
    if t != [] {
      GenderCountsBounded(t[..|t| - 1]);
    }
  }

  /** `above_average_performance['Employee_ID'].tolist()`. */
  function Ids(s: seq<ScoredRecord>): (ids: seq<Cell>)
    ensures |ids| == |s|
    ensures forall i :: 0 <= i < |s| ==> ids[i] == s[i].rec.id
  {
    if s == [] then [] else Ids(s[..|s| - 1]) + [s[|s| - 1].rec.id]
  }

  /** Number of rows whose department is `d`. */
  function CountDept(s: seq<ScoredRecord>, d: Cell): nat {
    if s == [] then 0
    else CountDept(s[..|s| - 1], d) + (if s[|s| - 1].rec.department == d then 1 else 0)
  }

  /** Number of rows that have a department at all. */
  function CountWithDept(s: seq<ScoredRecord>): nat {
    if s == [] then 0
    else CountWithDept(s[..|s| - 1]) + (if s[|s| - 1].rec.department != Absent then 1 else 0)
  }

  /**
   * `groupby('Department').size()`: one entry per department, built row by
   * row; rows with a null department are dropped, as `groupby` does.
   */
  function DeptHistogram(s: seq<ScoredRecord>): (h: map<Cell, nat>)
    ensures forall d :: d in h ==> d != Absent && h[d] > 0
  {
    if s == [] then map[]
    else
      var h := DeptHistogram(s[..|s| - 1]);
      var d := s[|s| - 1].rec.department;
      if d == Absent then h else h[d := (if d in h then h[d] else 0) + 1]
  }

  /**
   * The histogram holds exactly the departments that occur, each with the
   * number of its rows; departments with no rows do not appear.
   */
  lemma {:induction false} HistogramCounts(s: seq<ScoredRecord>)
    ensures forall d :: d in DeptHistogram(s) <==> d != Absent && CountDept(s, d) > 0
    ensures forall d :: d in DeptHistogram(s) ==> DeptHistogram(s)[d] == CountDept(s, d)
  {
    if s != [] {
      HistogramCounts(s[..|s| - 1]);
    }
  }

  /** Sum of the values of a map. */
  ghost function MapTotal(m: map<Cell, nat>): nat
    decreases |m|
  {
    if m == map[] then 0
    else
      var k :| k in m;
      assert |m - {k}| < |m| by { assert (m - {k}).Keys < m.Keys; }
      m[k] + MapTotal(m - {k})
  }

  lemma MapTotalPick(m: map<Cell, nat>, k: Cell)
    requires k in m
    ensures MapTotal(m) == m[k] + MapTotal(m - {k})
    decreases |m|
  {
    var k' :| k' in m && MapTotal(m) == m[k'] + MapTotal(m - {k'});
    if k' != k {
      assert |m - {k'}| < |m| by { assert (m - {k'}).Keys < m.Keys; }
      assert |m - {k}| < |m| by { assert (m - {k}).Keys < m.Keys; }
      MapTotalPick(m - {k'}, k);
      MapTotalPick(m - {k}, k');
      assert m - {k'} - {k} == m - {k} - {k'};
    }
  }

  lemma MapTotalUpdate(m: map<Cell, nat>, k: Cell, v: nat)
    ensures MapTotal(m[k := v]) == MapTotal(m) - (if k in m then m[k] else 0) + v
  {
    MapTotalPick(m[k := v], k);
    assert m[k := v] - {k} == m - {k};
    if k in m {
      MapTotalPick(m, k);
    } else {
      assert m - {k} == m;
    }
  }

  /** The histogram's counts add up to the number of rows that have a department. */
  lemma {:induction false} HistogramTotal(s: seq<ScoredRecord>)
    ensures MapTotal(DeptHistogram(s)) == CountWithDept(s)
  {
    if s != [] {
      var h := DeptHistogram(s[..|s| - 1]);
      var d := s[|s| - 1].rec.department;
      HistogramTotal(s[..|s| - 1]);
      if d != Absent {
        MapTotalUpdate(h, d, (if d in h then h[d] else 0) + 1);
      }
    }
  }

  /** `sort_values(..., ascending=False).head(1)`: some row with the top score. */
  ghost predicate IsMaxCandidate(s: seq<ScoredRecord>, c: ScoredRecord) {
    c in s && forall j :: 0 <= j < |s| ==> s[j].score <= c.score
  }

  /** `idxmax`: position `k` holds the top score and no earlier row reaches it. */
  ghost predicate IsFirstMax(s: seq<ScoredRecord>, k: int) {
    && 0 <= k < |s|
    && (forall j :: 0 <= j < |s| ==> s[j].score <= s[k].score)
    && (forall j :: 0 <= j < k ==> s[j].score < s[k].score)
  }

  function FirstMaxIndex(s: seq<ScoredRecord>): (k: nat)
    requires s != []
    ensures IsFirstMax(s, k)
  {
    if |s| == 1 then 0
    else
      var k := FirstMaxIndex(s[..|s| - 1]);
      if s[|s| - 1].score > s[k].score then |s| - 1 else k
  }

  /** The first-maximum position is unique, so the winner is reproducible. */
  lemma FirstMaxUnique(s: seq<ScoredRecord>, k1: int, k2: int)
    requires IsFirstMax(s, k1) && IsFirstMax(s, k2)
    ensures k1 == k2
  {
    assert s[k1].score == s[k2].score;
  }

  /**
   * `calculate_highest_performer`: (None, None) on an empty frame, otherwise
   * the id and department of the first row with the top score.
   */
  function HighestPerformer(s: seq<ScoredRecord>): (r: Option<(Cell, Cell)>)
    ensures r.None? <==> s == []
    ensures r.Some? ==> exists k :: IsFirstMax(s, k) && r.value == (s[k].rec.id, s[k].rec.department)
  {
    if s == [] then None
    else
      var k := FirstMaxIndex(s);
      Some((s[k].rec.id, s[k].rec.department))
  }

  /** The highest performer and any max-score candidate share the top score. */
  lemma HighestMatchesCandidate(s: seq<ScoredRecord>, c: ScoredRecord)
    requires IsMaxCandidate(s, c)
    ensures HighestPerformer(s).Some?
    ensures exists k :: IsFirstMax(s, k) && s[k].score == c.score
              && HighestPerformer(s).value == (s[k].rec.id, s[k].rec.department)
  {
    var k := FirstMaxIndex(s);
    var i :| 0 <= i < |s| && s[i] == c;
    assert s[k].score == c.score;
  }

  /** What `sum()` adds for one KPI cell: nulls contribute nothing. */
  function KpiAmount(c: Cell): real {
    if c.Num? then c.value else 0.0
  }

  /** Sum of the KPI values of the rows in department `d`. */
  function DeptKpiTotal(t: seq<ScoredRecord>, d: Cell): real {
    if t == [] then 0.0
    else DeptKpiTotal(t[..|t| - 1], d) + (if t[|t| - 1].rec.department == d then KpiAmount(t[|t| - 1].rec.kpi) else 0.0)
  }

  /** Departments that occur in the frame (nulls excluded). */
  function Departments(t: seq<ScoredRecord>): set<Cell> {
    set i | 0 <= i < |t| && t[i].rec.department != Absent :: t[i].rec.department
  }

  /** Every row that takes part in a department group has a summable KPI. */
  predicate KpiSummable(t: seq<ScoredRecord>) {
    forall i :: 0 <= i < |t| && t[i].rec.department != Absent ==> !t[i].rec.kpi.Text?
  }

  /**
   * `df.groupby('Department')['KPIs_meet >80'].sum()` (app.py line 121):
   * the KPI total of every department that occurs; a text KPI left in a
   * group makes the sum raise.
   */
  function KpiByDepartment(t: seq<ScoredRecord>): (r: Result<map<Cell, real>>)
    ensures r.Err? <==> !KpiSummable(t)
    ensures r.Ok? ==> forall i :: 0 <= i < |t| && t[i].rec.department != Absent ==> t[i].rec.department in r.value
    ensures r.Ok? ==> forall d :: d in r.value ==> d != Absent && CountDept(t, d) > 0
  {
    if !KpiSummable(t) then Err(NonNumericKpi)
    else
      DepartmentsOccur(t);
      Ok(map d | d in Departments(t) :: DeptKpiTotal(t, d))
  }

  lemma {:induction false} DepartmentsOccur(t: seq<ScoredRecord>)
    ensures forall d :: d in Departments(t) <==> d != Absent && CountDept(t, d) > 0
  {
    if t != [] {
      var p := t[..|t| - 1];
      DepartmentsOccur(p);
      assert forall i :: 0 <= i < |p| ==> p[i] == t[i];
      assert Departments(t) == Departments(p) + (if t[|t| - 1].rec.department != Absent then {t[|t| - 1].rec.department} else {});
    }
  }

  /** Rows of department `d` whose KPI is met (normalised to 1). */
  function CountKpiMet(t: seq<ScoredRecord>, d: Cell): nat {
    if t == [] then 0
    else CountKpiMet(t[..|t| - 1], d) + (if t[|t| - 1].rec.department == d && t[|t| - 1].rec.kpi == Num(1.0) then 1 else 0)
  }

  /** A KPI cell that is a 0/1 flag or blank. */
  predicate IsFlagOrBlank(c: Cell) {
    c == Absent || c == Num(0.0) || c == Num(1.0)
  }

  /**
   * With 0/1 or blank KPI values, a department's KPI total is its number of
   * KPI-meeting rows (blank flags add nothing, as `sum()` skips nulls).
   */
  lemma {:induction false} KpiTotalCountsMet(t: seq<ScoredRecord>, d: Cell)
    requires forall i :: 0 <= i < |t| && t[i].rec.department == d ==> IsFlagOrBlank(t[i].rec.kpi)
    ensures DeptKpiTotal(t, d) == CountKpiMet(t, d) as real
  {
    if t != [] {
      var p := t[..|t| - 1];
      assert forall i :: 0 <= i < |p| ==> p[i] == t[i];
      KpiTotalCountsMet(p, d);
    }
  }

  /**
   * When every row that has a department carries a 0/1 or blank KPI, the
   * per-department sum succeeds and counts the KPI-meeting employees.
   */
  lemma KpiByDepartmentCountsMet(t: seq<ScoredRecord>)
    requires forall i :: 0 <= i < |t| && t[i].rec.department != Absent ==> IsFlagOrBlank(t[i].rec.kpi)
    ensures KpiByDepartment(t).Ok?
    ensures forall d :: d in KpiByDepartment(t).value ==> KpiByDepartment(t).value[d] == CountKpiMet(t, d) as real
  {
    forall d | d in KpiByDepartment(t).value
      ensures KpiByDepartment(t).value[d] == CountKpiMet(t, d) as real
    {
      KpiTotalCountsMet(t, d);
    }
  }
}
