/** The two in-place column fixes that open `filter_above_average`. */
module Normalization {
  import opened Table

  /** `replace({'Y': 1, 'N': 0})` applied to one KPI cell. */
  function NormalizeKpi(c: Cell): (r: Cell)
    ensures c == Text("Y") ==> r == Num(1.0)
    ensures c == Text("N") ==> r == Num(0.0)
    ensures r == c <==> c != Text("Y") && c != Text("N")
    ensures r != Text("Y") && r != Text("N")
  {
    if c == Text("Y") then Num(1.0)
    else if c == Text("N") then Num(0.0)
    else c
  }

  /** `fillna(0)` applied to one years-of-experience cell. */
  function FillExperience(c: Cell): (r: Cell)
    ensures r != Absent
    ensures c != Absent ==> r == c
    ensures c == Absent ==> r == Num(0.0)
  {
    if c == Absent then Num(0.0) else c
  }

  /** Both fixes on one row; every other field is left as it was. */
  function NormalizeRecord(r: Record): (n: Record)
    ensures n.kpi == NormalizeKpi(r.kpi)
    ensures n.experience == FillExperience(r.experience)
    ensures n.(kpi := r.kpi, experience := r.experience) == r
  {
    r.(kpi := NormalizeKpi(r.kpi), experience := FillExperience(r.experience))
  }

  /** Both column-wide fixes; every row is fixed on its own and keeps its place. */
  function NormalizeAll(rows: seq<Record>): (out: seq<Record>)
    ensures |out| == |rows|
    ensures forall i :: 0 <= i < |rows| ==> out[i] == NormalizeRecord(rows[i])
    ensures forall i :: 0 <= i < |rows| ==> out[i].experience != Absent
    ensures forall i :: 0 <= i < |rows| ==> out[i].kpi != Text("Y") && out[i].kpi != Text("N")
    ensures forall i :: 0 <= i < |rows| ==> out[i].(kpi := rows[i].kpi, experience := rows[i].experience) == rows[i]
  {
    seq(|rows|, i requires 0 <= i < |rows| => NormalizeRecord(rows[i]))
  }

  /** Normalising a second time changes nothing. */
  lemma NormalizeIdempotent(rows: seq<Record>)
    ensures NormalizeAll(NormalizeAll(rows)) == NormalizeAll(rows)
  {
  }
}
