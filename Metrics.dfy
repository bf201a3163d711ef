/**
 * `calculate_kpi_metrics`: precision, recall and F1 of the prediction
 * "score above the mean of this frame" against the KPI flag, from the
 * confusion-matrix counts.
 */
module Metrics {
  import opened Table
  import opened Threshold

  /** `astype(int)` on a number: truncation toward zero. */
  function Trunc(x: real): (n: int)
    ensures x >= 0.0 ==> n as real <= x < n as real + 1.0
    ensures x < 0.0 ==> n as real - 1.0 < x <= n as real
  {
    if x >= 0.0 then x.Floor else -((-x).Floor)
  }

  /**
   * The ground-truth label of one KPI cell. Only 0 and 1 (after truncation)
   * are binary labels; a null or text cell cannot be cast to int.
   */
  function KpiLabel(c: Cell): (r: Result<bool>)
    ensures r == Ok(true) <==> c.Num? && 1.0 <= c.value < 2.0
    ensures r == Ok(false) <==> c.Num? && -1.0 < c.value < 1.0
  {
    match c
    case Num(x) =>
      var n := Trunc(x);
      if n == 1 then Ok(true) else if n == 0 then Ok(false) else Err(NonBinaryKpi)
    case _ => Err(NonBinaryKpi)
  }

  /** `y_true`: one label per row, or the failure of the cast. */
  function TrueLabels(t: seq<ScoredRecord>): (r: Result<seq<bool>>)
    ensures r.Err? <==> exists i :: 0 <= i < |t| && KpiLabel(t[i].rec.kpi).Err?
    ensures r.Ok? ==> |r.value| == |t| && forall i :: 0 <= i < |t| ==> KpiLabel(t[i].rec.kpi) == Ok(r.value[i])
  {
    if t == [] then Ok([])
    else
      var p := t[..|t| - 1];
      assert forall i :: 0 <= i < |p| ==> p[i] == t[i];
      match TrueLabels(p)
      case Err(e) => Err(e)
      case Ok(ls) =>
        match KpiLabel(t[|t| - 1].rec.kpi)
        case Err(e) => Err(e)
        case Ok(l) => Ok(ls + [l])
  }

  /** `y_pred`: score strictly above the mean of the frame passed in. */
  function Predictions(t: seq<ScoredRecord>): (p: seq<bool>)
    ensures |p| == |t|
    ensures forall i :: 0 <= i < |t| ==> p[i] == (t[i].score > MeanScore(t).value)
  {
    match MeanScore(t)
    case None => []
    case Some(m) => seq(|t|, i requires 0 <= i < |t| => t[i].score > m)
  }

  datatype Confusion = Confusion(truePos: nat, falsePos: nat, falseNeg: nat, trueNeg: nat)

  function CountTrue(bs: seq<bool>): nat {
    if bs == [] then 0 else CountTrue(bs[..|bs| - 1]) + (if bs[|bs| - 1] then 1 else 0)
  }

  /** Number of positions whose label is `l` and whose prediction is `p`. */
  function CountPairs(truth: seq<bool>, pred: seq<bool>, l: bool, p: bool): nat
    requires |truth| == |pred|
  {
    if truth == [] then 0
    else
      CountPairs(truth[..|truth| - 1], pred[..|pred| - 1], l, p)
      + (if truth[|truth| - 1] == l && pred[|pred| - 1] == p then 1 else 0)
  }

  /** The confusion matrix of predictions `pred` against labels `truth`. */
  function Tally(truth: seq<bool>, pred: seq<bool>): (c: Confusion)
    requires |truth| == |pred|
    ensures c.truePos == CountPairs(truth, pred, true, true)
    ensures c.falsePos == CountPairs(truth, pred, false, true)
    ensures c.falseNeg == CountPairs(truth, pred, true, false)
    ensures c.trueNeg == CountPairs(truth, pred, false, false)
    ensures c.truePos + c.falsePos + c.falseNeg + c.trueNeg == |truth|
    ensures c.truePos + c.falsePos == CountTrue(pred)
    ensures c.truePos + c.falseNeg == CountTrue(truth)
  {
    if truth == [] then Confusion(0, 0, 0, 0)
    else
      var c := Tally(truth[..|truth| - 1], pred[..|pred| - 1]);
      var l, p := truth[|truth| - 1], pred[|pred| - 1];
      if l && p then c.(truePos := c.truePos + 1)
      else if p then c.(falsePos := c.falsePos + 1)
      else if l then c.(falseNeg := c.falseNeg + 1)
      else c.(trueNeg := c.trueNeg + 1)
  }

  /** tp / (tp + fp); undefined when nothing is predicted positive. */
  function Precision(c: Confusion): (p: Option<real>)
    ensures p.None? <==> c.truePos + c.falsePos == 0
    ensures p.Some? ==> 0.0 <= p.value <= 1.0
    ensures p.Some? ==> p.value * (c.truePos + c.falsePos) as real == c.truePos as real
  {
    if c.truePos + c.falsePos == 0 then None
    else Some(c.truePos as real / (c.truePos + c.falsePos) as real)
  }

  /** tp / (tp + fn); undefined when no label is positive. */
  function Recall(c: Confusion): (r: Option<real>)
    ensures r.None? <==> c.truePos + c.falseNeg == 0
    ensures r.Some? ==> 0.0 <= r.value <= 1.0
    ensures r.Some? ==> r.value * (c.truePos + c.falseNeg) as real == c.truePos as real
  {
    if c.truePos + c.falseNeg == 0 then None
    else Some(c.truePos as real / (c.truePos + c.falseNeg) as real)
  }

  /** 2tp / (2tp + fp + fn); undefined when there is no positive at all. */
  function F1(c: Confusion): (f: Option<real>)
    ensures f.None? <==> c.truePos + c.falsePos + c.falseNeg == 0
    ensures f.Some? ==> 0.0 <= f.value <= 1.0
  {
    var d := 2 * c.truePos + c.falsePos + c.falseNeg;
    if d == 0 then None
    else
      RatioInUnit((2 * c.truePos) as real, d as real);
      Some((2 * c.truePos) as real / d as real)
  }

  lemma RatioInUnit(x: real, d: real)
    requires 0.0 <= x <= d && d > 0.0
    ensures 0.0 <= x / d <= 1.0
  {
    assert x / d * d == x;
  }

  lemma CrossDivide(x: real, y: real, u: real, v: real)
    requires y > 0.0 && v > 0.0 && x * v == u * y
    ensures x / y == u / v
  {
    assert x / y == (x * v) / (y * v);
    assert u / v == (u * y) / (v * y);
  }

  lemma HarmonicAlgebra(tp: real, a: real, b: real, p: real, r: real)
    requires tp > 0.0 && a > 0.0 && b > 0.0 && p * a == tp && r * b == tp
    ensures p + r > 0.0 && 2.0 * p * r / (p + r) == 2.0 * tp / (a + b)
  {
    assert p > 0.0 && r > 0.0;
    calc {
      2.0 * p * r * (a + b);
      2.0 * r * (p * a) + 2.0 * p * (r * b);
      2.0 * tp * (p + r);
    }
    CrossDivide(2.0 * p * r, p + r, 2.0 * tp, a + b);
  }

  /**
   * Where precision and recall are both defined, F1 is their harmonic mean
   * 2pr / (p + r), and 0 when both are 0.
   */
  lemma F1IsHarmonicMean(c: Confusion)
    requires Precision(c).Some? && Recall(c).Some?
    ensures F1(c).Some?
    ensures var p, r := Precision(c).value, Recall(c).value;
            F1(c).value == if p + r == 0.0 then 0.0 else 2.0 * p * r / (p + r)
  {
    var p, r := Precision(c).value, Recall(c).value;
    if c.truePos > 0 {
      var tp := c.truePos as real;
      var a, b := (c.truePos + c.falsePos) as real, (c.truePos + c.falseNeg) as real;
      var d := (2 * c.truePos + c.falsePos + c.falseNeg) as real;
      HarmonicAlgebra(tp, a, b, p, r);
      assert a + b == d;
      assert (2 * c.truePos) as real == 2.0 * tp;
      assert F1(c).value == 2.0 * tp / d;
      assert 2.0 * p * r / (p + r) == 2.0 * tp / d;
    } else {
      assert c.truePos as real == 0.0;
      assert p == 0.0 / (c.truePos + c.falsePos) as real;
      assert r == 0.0 / (c.truePos + c.falseNeg) as real;
    }
  }

  datatype KpiScores = KpiScores(precision: Option<real>, recall: Option<real>, f1: Option<real>)

  /**
   * The three scores of a frame, or the fault raised while casting its KPI
   * column; on an empty frame all three are undefined.
   */
  function KpiMetrics(t: seq<ScoredRecord>): (r: Result<KpiScores>)
    ensures r.Err? <==> exists i :: 0 <= i < |t| && KpiLabel(t[i].rec.kpi).Err?
    ensures r.Ok? ==> r.value.precision.Some? ==> 0.0 <= r.value.precision.value <= 1.0
    ensures r.Ok? ==> r.value.recall.Some? ==> 0.0 <= r.value.recall.value <= 1.0
    ensures r.Ok? ==> r.value.f1.Some? ==> 0.0 <= r.value.f1.value <= 1.0
    ensures r.Ok? && t == [] ==> r.value == KpiScores(None, None, None)
    ensures r.Ok? ==> TrueLabels(t).Ok?
    ensures r.Ok? ==> (var c := Tally(TrueLabels(t).value, Predictions(t));
                       r.value == KpiScores(Precision(c), Recall(c), F1(c)))
  {
    match TrueLabels(t)
    case Err(e) => Err(e)
    case Ok(truth) =>
      var c := Tally(truth, Predictions(t));
      Ok(KpiScores(Precision(c), Recall(c), F1(c)))
  }

  /**
   * On a non-empty frame the lowest-scoring row is predicted negative, so
   * fewer rows are predicted positive than the frame holds.
   */
  lemma NotAllPredictedPositive(t: seq<ScoredRecord>)
    requires t != []
    ensures CountTrue(Predictions(t)) < |t|
  {
    NonEmptySubsetIsStrict(t);
    var i :| 0 <= i < |t| && t[i].score <= MeanScore(t).value;
    CountTrueMissing(Predictions(t), i);
  }

  lemma {:induction false} CountTrueMissing(bs: seq<bool>, i: nat)
    requires i < |bs| && !bs[i]
    ensures CountTrue(bs) < |bs|
  {
    var p := bs[..|bs| - 1];
    if i < |bs| - 1 {
      assert p[i] == bs[i];
      CountTrueMissing(p, i);
    }
    CountTrueBounded(p);
  }

  lemma {:induction false} CountTrueBounded(bs: seq<bool>)
    ensures CountTrue(bs) <= |bs|
  {
    if bs != [] {
      CountTrueBounded(bs[..|bs| - 1]);
    }
  }
}
