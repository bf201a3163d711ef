/** `calculate_performance_score`: a fixed-weight sum over six features. */
module Scoring {
  import opened Table

  /** The six weighted features of a row, in the order of the weights table. */
  function Features(r: Record): seq<Cell> {
    [r.experience, r.kpi, r.rating, r.softSkills, r.supervisorReview, r.jobSatisfaction]
  }

  /** Weights of experience, KPI, rating, soft skills, supervisor review, satisfaction. */
  const WEIGHTS: seq<real> := [0.10, 0.2, 0.10, 0.2, 0.2, 0.2]

  /** A present feature holds text, so `row[feature] * weight` raises. */
  predicate HasMalformedFeature(r: Record) {
    exists i :: 0 <= i < |Features(r)| && Features(r)[i].Text?
  }

  /**
   * The generator-expression sum: null cells are skipped, numbers add
   * `value * weight`, and a text cell makes the whole sum raise (None).
   */
  function WeightedSum(cs: seq<Cell>, ws: seq<real>): (r: Option<real>)
    requires |cs| == |ws|
    ensures r.None? <==> exists i :: 0 <= i < |cs| && cs[i].Text?
    decreases |cs|
  {
    if cs == [] then Some(0.0)
    else
      var rest := WeightedSum(cs[1..], ws[1..]);
      assert forall i :: 1 <= i < |cs| ==> cs[i] == cs[1..][i - 1];
      match cs[0]
      case Text(_) => None
      case Absent => rest
      case Num(x) => if rest.None? then None else Some(x * ws[0] + rest.value)
  }

  /** The score of a row; the blanket `except` turns a raised sum into 0. */
  function Score(r: Record): (s: real)
    ensures HasMalformedFeature(r) ==> s == 0.0
  {
    match WeightedSum(Features(r), WEIGHTS)
    case Some(v) => v
    case None => 0.0
  }

  /** `weight * value` for a numeric cell, nothing for a null one. */
  function Term(c: Cell, w: real): real {
    if c.Num? then w * c.value else 0.0
  }

  /** Every row is scored on its own (`df.apply(..., axis=1)`). */
  function ScoreAll(rows: seq<Record>): (t: seq<ScoredRecord>)
    ensures |t| == |rows|
    ensures forall i :: 0 <= i < |rows| ==> t[i].rec == rows[i]
    ensures forall i :: 0 <= i < |rows| ==> t[i].score == Score(rows[i])
    ensures forall i :: 0 <= i < |rows| && HasMalformedFeature(rows[i]) ==> t[i].score == 0.0
  {
    seq(|rows|, i requires 0 <= i < |rows| => Scored(rows[i], Score(rows[i])))
  }

  /** Replaces feature `k` (in `Features` order) of a row. */
  function WithFeature(r: Record, k: nat, c: Cell): (r': Record)
    requires k < 6
    ensures Features(r') == Features(r)[k := c]
    ensures r'.id == r.id && r'.gender == r.gender && r'.department == r.department
  {
    match k
    case 0 => r.(experience := c)
    case 1 => r.(kpi := c)
    case 2 => r.(rating := c)
    case 3 => r.(softSkills := c)
    case 4 => r.(supervisorReview := c)
    case 5 => r.(jobSatisfaction := c)
  }

  /** The weights sum to 1 when all six features are present. */
  lemma WeightsSumToOne()
    ensures |WEIGHTS| == 6
    ensures WEIGHTS[0] + WEIGHTS[1] + WEIGHTS[2] + WEIGHTS[3] + WEIGHTS[4] + WEIGHTS[5] == 1.0
    ensures forall i :: 0 <= i < |WEIGHTS| ==> WEIGHTS[i] > 0.0
  {
  }

  /**
   * A well-formed row scores the sum of weight times value over its
   * non-null features only; the weights are not renormalised.
   */
  lemma ScoreFormula(r: Record)
    requires !HasMalformedFeature(r)
    ensures Score(r) == Term(r.experience, 0.10) + Term(r.kpi, 0.2) + Term(r.rating, 0.10)
                      + Term(r.softSkills, 0.2) + Term(r.supervisorReview, 0.2)
                      + Term(r.jobSatisfaction, 0.2)
  {
    var cs := Features(r);
    assert !cs[0].Text? && !cs[1].Text? && !cs[2].Text? && !cs[3].Text? && !cs[4].Text? && !cs[5].Text?;
    assert WeightedSum(cs[5..], WEIGHTS[5..]) == Some(Term(cs[5], 0.2));
    assert WeightedSum(cs[4..], WEIGHTS[4..]) == Some(Term(cs[4], 0.2) + Term(cs[5], 0.2));
    assert WeightedSum(cs[3..], WEIGHTS[3..]) == Some(Term(cs[3], 0.2) + Term(cs[4], 0.2) + Term(cs[5], 0.2));
    assert WeightedSum(cs[2..], WEIGHTS[2..])
        == Some(Term(cs[2], 0.10) + Term(cs[3], 0.2) + Term(cs[4], 0.2) + Term(cs[5], 0.2));
    assert WeightedSum(cs[1..], WEIGHTS[1..])
        == Some(Term(cs[1], 0.2) + Term(cs[2], 0.10) + Term(cs[3], 0.2) + Term(cs[4], 0.2) + Term(cs[5], 0.2));
  }

  /** A row whose six features are all null scores 0. */
  lemma AllAbsentScoresZero(r: Record)
    requires forall i :: 0 <= i < |Features(r)| ==> Features(r)[i] == Absent
    ensures Score(r) == 0.0
  {
    assert Features(r)[0] == Absent && Features(r)[1] == Absent && Features(r)[2] == Absent;
    assert Features(r)[3] == Absent && Features(r)[4] == Absent && Features(r)[5] == Absent;
    ScoreFormula(r);
  }

  /** Raising one present numeric feature never lowers the score. */
  lemma ScoreMonotone(r: Record, k: nat, y: real)
    requires k < 6 && Features(r)[k].Num? && Features(r)[k].value <= y
    ensures Score(r) <= Score(WithFeature(r, k, Num(y)))
  {
    var r' := WithFeature(r, k, Num(y));
    if HasMalformedFeature(r) {
      var i :| 0 <= i < 6 && Features(r)[i].Text?;
      assert Features(r')[i].Text?;
    } else {
      assert !HasMalformedFeature(r');
      ScoreFormula(r);
      ScoreFormula(r');
    }
  }

  /** A malformed row gets score 0 in the score column. */
  lemma MalformedRowScoresZero(rows: seq<Record>, i: nat)
    requires i < |rows| && HasMalformedFeature(rows[i])
    ensures ScoreAll(rows)[i].score == 0.0
  {
  }

  /** Replacing row `i`, malformed or not, never changes the score of any other row. */
  lemma RowsScoredIndependently(rows: seq<Record>, i: nat, other: Record)
    requires i < |rows|
    ensures forall j :: 0 <= j < |rows| && j != i ==> ScoreAll(rows[i := other])[j] == ScoreAll(rows)[j]
  {
  }
}
