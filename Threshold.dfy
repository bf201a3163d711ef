/** The mean score and the strictly-above-mean subset (app.py lines 55-58). */
module Threshold {
  import opened Table

  function SumScores(t: seq<ScoredRecord>): real {
    if t == [] then 0.0 else SumScores(t[..|t| - 1]) + t[|t| - 1].score
  }

  /** `df['Performance_score'].mean()`; None stands for the NaN of an empty frame. */
  function MeanScore(t: seq<ScoredRecord>): (m: Option<real>)
    ensures m.None? <==> t == []
  {
    if t == [] then None else Some(SumScores(t) / |t| as real)
  }

  /** `df[df['Performance_score'] > m]`: the rows scoring above `m`, in frame order. */
  function StrictlyAbove(t: seq<ScoredRecord>, m: real): (r: seq<ScoredRecord>)
    ensures |r| <= |t|
    ensures forall x :: x in r ==> x in t && x.score > m
  {
    if t == [] then []
    else StrictlyAbove(t[..|t| - 1], m) + (if t[|t| - 1].score > m then [t[|t| - 1]] else [])
  }

  /** The frame positions of the rows that `StrictlyAbove` keeps. */
  function AboveIndices(t: seq<ScoredRecord>, m: real): seq<nat> {
    if t == [] then []
    else AboveIndices(t[..|t| - 1], m) + (if t[|t| - 1].score > m then [|t| - 1] else [])
  }

  /** The above-average subset: rows strictly above the mean over ALL rows. */
  function AboveAverage(t: seq<ScoredRecord>): (r: seq<ScoredRecord>)
    ensures t == [] ==> r == []
    ensures forall x :: x in r ==> x in t && x.score > MeanScore(t).value
  {
    match MeanScore(t)
    case None => []
    case Some(m) => StrictlyAbove(t, m)
  }

  /**
   * `StrictlyAbove` keeps exactly the rows scoring above `m`, each once and in
   * frame order: its j-th row is the row at the j-th such position.
   */
  lemma StrictlyAboveSelects(t: seq<ScoredRecord>, m: real)
    ensures |StrictlyAbove(t, m)| == |AboveIndices(t, m)|
    ensures forall j :: 0 <= j < |AboveIndices(t, m)| ==>
              AboveIndices(t, m)[j] < |t| && StrictlyAbove(t, m)[j] == t[AboveIndices(t, m)[j]]
    ensures forall j, k :: 0 <= j < k < |AboveIndices(t, m)| ==> AboveIndices(t, m)[j] < AboveIndices(t, m)[k]
    ensures forall i :: 0 <= i < |t| ==> (i in AboveIndices(t, m) <==> t[i].score > m)
  {
    IndicesIncreasing(t, m);
    IndicesPickRows(t, m);
    IndicesExact(t, m);
  }

  lemma {:induction false} IndicesIncreasing(t: seq<ScoredRecord>, m: real)
    ensures forall j :: 0 <= j < |AboveIndices(t, m)| ==> AboveIndices(t, m)[j] < |t|
    ensures forall j, k :: 0 <= j < k < |AboveIndices(t, m)| ==> AboveIndices(t, m)[j] < AboveIndices(t, m)[k]
  {
    if t != [] {
      IndicesIncreasing(t[..|t| - 1], m);
    }
  }

  lemma {:induction false} IndicesPickRows(t: seq<ScoredRecord>, m: real)
    ensures |StrictlyAbove(t, m)| == |AboveIndices(t, m)|
    ensures forall j :: 0 <= j < |AboveIndices(t, m)| ==>
              AboveIndices(t, m)[j] < |t| && StrictlyAbove(t, m)[j] == t[AboveIndices(t, m)[j]]
  {
    if t != [] {
      var p := t[..|t| - 1];
      IndicesPickRows(p, m);
      assert forall i :: 0 <= i < |p| ==> p[i] == t[i];
    }
  }

  lemma {:induction false} IndicesExact(t: seq<ScoredRecord>, m: real)
    ensures forall i :: 0 <= i < |t| ==> (i in AboveIndices(t, m) <==> t[i].score > m)
  {
    if t != [] {
      var n := |t| - 1;
      var p := t[..n];
      IndicesExact(p, m);
      IndicesIncreasing(p, m);
      assert forall i :: 0 <= i < n ==> p[i] == t[i];
      assert n !in AboveIndices(p, m);
    }
  }

  /** The lowest score of a non-empty frame is at most its mean. */
  lemma LowestAtMostMean(t: seq<ScoredRecord>, i: nat)
    requires i < |t| && forall j :: 0 <= j < |t| ==> t[i].score <= t[j].score
    ensures t[i].score <= MeanScore(t).value
  {
    SumAtLeast(t, t[i].score);
    var n := |t| as real;
    assert SumScores(t) / n >= t[i].score;
  }

  /**
   * The lowest-scoring row is never above average, so the subset of a
   * non-empty frame always leaves at least one row out.
   */
  lemma LowestNotAbove(t: seq<ScoredRecord>, i: nat)
    requires i < |t| && forall j :: 0 <= j < |t| ==> t[i].score <= t[j].score
    ensures t[i] !in AboveAverage(t)
    ensures |AboveAverage(t)| < |t|
  {
    LowestAtMostMean(t, i);
    StrictlyAboveShorter(t, MeanScore(t).value, i);
  }

  /** In a non-empty frame the above-average count is below the frame size, and some row scores no more than the mean. */
  lemma NonEmptySubsetIsStrict(t: seq<ScoredRecord>)
    requires t != []
    ensures |AboveAverage(t)| < |t|
    ensures exists i :: 0 <= i < |t| && t[i].score <= MeanScore(t).value
  {
    var k := LowestIndex(t);
    LowestNotAbove(t, k);
    LowestAtMostMean(t, k);
  }

  lemma {:induction false} StrictlyAboveShorter(t: seq<ScoredRecord>, m: real, i: nat)
    requires i < |t| && t[i].score <= m
    ensures |StrictlyAbove(t, m)| < |t|
  {
    var p := t[..|t| - 1];
    if i < |t| - 1 {
      assert p[i] == t[i];
      StrictlyAboveShorter(p, m, i);
    }
  }

  lemma {:induction false} SumAtLeast(t: seq<ScoredRecord>, lo: real)
    requires forall j :: 0 <= j < |t| ==> lo <= t[j].score
    ensures |t| as real * lo <= SumScores(t)
  {
    if t != [] {
      var p := t[..|t| - 1];
      assert forall j :: 0 <= j < |p| ==> p[j] == t[j];
      SumAtLeast(p, lo);
    }
  }

  function LowestIndex(t: seq<ScoredRecord>): (k: nat)
    requires t != []
    ensures k < |t| && forall j :: 0 <= j < |t| ==> t[k].score <= t[j].score
  {
    if |t| == 1 then 0
    else
      var k := LowestIndex(t[..|t| - 1]);
      if t[|t| - 1].score < t[k].score then |t| - 1 else k
  }
}
