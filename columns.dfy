/** The DataFrame that `dist_gen.py` builds from `rows` (lines 40-43): every
    row keeps its three fields and gains the distance in kilometres, the
    duration in minutes and the average speed in km/h.

    Arithmetic is on mathematical reals; pandas divides IEEE doubles, so the
    model has no rounding. A division by zero gives infinity or NaN there, which
    the model keeps apart as the non-finite speeds. */
module Columns {
  import opened Outcomes
  import opened EdgeRows

  /** An `avg_speed_kmh` cell: a finite speed, or what a float division by a
      zero duration gives. */
  datatype Speed = Kmh(value: real) | PosInf | NegInf | NaN

  /** One row of the DataFrame with its derived columns. */
  datatype Record = Record(
    edgeName: string,
    distanceM: real,
    durationS: real,
    distanceKm: real,
    durationMin: real,
    avgSpeedKmh: Speed)

  /** Line 41: metres to kilometres. */
  function DistanceKm(m: real): (km: real)
    ensures km * 1000.0 == m
  {
    m / 1000.0
  }

  /** Line 42: seconds to minutes. */
  function DurationMin(s: real): (min: real)
    ensures min * 60.0 == s
  {
    s / 60.0
  }

  /** Line 43: kilometres over hours. A zero duration divides by zero, which
      gives an infinity of the distance's sign, or NaN for a zero distance. */
  function AvgSpeedKmh(km: real, min: real): (v: Speed)
    ensures v.Kmh? <==> min != 0.0
    ensures v.Kmh? ==> v.value * (min / 60.0) == km
    ensures min == 0.0 ==> (v == PosInf <==> km > 0.0) && (v == NegInf <==> km < 0.0) && (v == NaN <==> km == 0.0)
  {
    if min != 0.0 then Kmh(km / (min / 60.0))
    else if km > 0.0 then PosInf
    else if km < 0.0 then NegInf
    else NaN
  }

  /** One DataFrame row from one element of `rows`: the three fields it
      brought, the distance in kilometres, the duration in minutes and the
      average speed computed from those two derived columns. */
  function RecordOf(row: Row): (rec: Record)
    ensures RowOf(rec) == row
    ensures rec.distanceKm * 1000.0 == row.distanceM
    ensures rec.durationMin * 60.0 == row.durationS
    ensures rec.avgSpeedKmh == AvgSpeedKmh(rec.distanceKm, rec.durationMin)
  {
    var km := DistanceKm(row.distanceM);
    var min := DurationMin(row.durationS);
    Record(row.edgeName, row.distanceM, row.durationS, km, min, AvgSpeedKmh(km, min))
  }

  /** The three columns that `rows` brought in. */
  function RowOf(rec: Record): Row
  {
    Row(rec.edgeName, rec.distanceM, rec.durationS)
  }

  /** Lines 40-43 for a non-empty `rows`: one record per row, in order. */
  function Frame(rows: seq<Row>): (fr: seq<Record>)
    ensures |fr| == |rows|
    ensures forall k :: 0 <= k < |rows| ==> fr[k] == RecordOf(rows[k])
  {
    if rows == [] then [] else [RecordOf(rows[0])] + Frame(rows[1..])
  }

  /** The columns of the frame before line 41, read back. */
  function Rows(fr: seq<Record>): (rows: seq<Row>)
    ensures |rows| == |fr|
    ensures forall k :: 0 <= k < |fr| ==> rows[k] == RowOf(fr[k])
  {
    if fr == [] then [] else [RowOf(fr[0])] + Rows(fr[1..])
  }

  /** Lines 40-43: a DataFrame built from no rows has no `distance_m` column,
      and reading it raises KeyError. */
  function Table(rows: seq<Row>): (t: Result<seq<Record>>)
    ensures t.Err? <==> rows == []
    ensures t.Err? ==> t.fault == NoDistanceColumn
    ensures t.Ok? ==> |t.value| == |rows| && Rows(t.value) == rows
    ensures t.Ok? ==> forall k :: 0 <= k < |rows| ==> t.value[k] == RecordOf(rows[k])
  {
    if rows == [] then Err(NoDistanceColumn)
    else
      FrameKeepsRows(rows);
      Ok(Frame(rows))
  }

  /** The whole script, lines 15-43: run the loop, then build the columns. The
      first placemark whose step fails ends the run with its fault; a run that
      routes no placemark fails at line 41. */
  method DistanceTable(placemarks: seq<Placemark>, server: string -> Reply) returns (table: Result<seq<Record>>)
    ensures var steps := Steps(placemarks, server);
      var k := FirstAbort(steps);
      if k < |steps| then table == Err(steps[k].fault)
      else table == Table(RowsOf(steps))
  {
    var outcome := CollectRows(placemarks, server);
    match outcome
    case Aborted(fault, _) =>
      table := Err(fault);
    case Completed(rows) =>
      table := Table(rows);
  }

  // ---------------------------------------------------------------------
  // Lemmas

  /** The derived columns do not touch the three columns they are computed
      from: reading them back gives `rows` again. */
  lemma {:induction false} FrameKeepsRows(rows: seq<Row>)
    ensures Rows(Frame(rows)) == rows
  {
    var back := Rows(Frame(rows));
    forall k | 0 <= k < |rows|
      ensures back[k] == rows[k]
    {
      assert Frame(rows)[k] == RecordOf(rows[k]);
    }
  }

  /** For a non-zero duration the average speed is the speed in metres per
      second times 3.6. */
  lemma SpeedFromLeg(m: real, s: real)
    requires s != 0.0
    ensures AvgSpeedKmh(DistanceKm(m), DurationMin(s)) == Kmh(m / s * 3.6)
  {
    var v := AvgSpeedKmh(DistanceKm(m), DurationMin(s));
    assert DurationMin(s) / 60.0 == s / 3600.0;
    assert v.value * (s / 3600.0) == m / 1000.0;
    assert v.value * s == 3.6 * m;
  }

  /** A route with a positive duration and no negative length has a finite
      speed that is not negative. */
  lemma SpeedOfRoute(m: real, s: real)
    requires m >= 0.0 && s > 0.0
    ensures var v := AvgSpeedKmh(DistanceKm(m), DurationMin(s));
      v.Kmh? && v.value >= 0.0
  {
    SpeedFromLeg(m, s);
  }

  /** When the run completes, the table has one record per placemark with
      LineString coordinates, or fails when there is none. */
  lemma TableSize(placemarks: seq<Placemark>, server: string -> Reply)
    requires FirstAbort(Steps(placemarks, server)) == |placemarks|
    ensures var t := Table(RowsOf(Steps(placemarks, server)));
      && (t.Err? <==> LineCount(placemarks) == 0)
      && (t.Ok? ==> |t.value| == LineCount(placemarks))
  {
    CompletedRowCount(placemarks, server);
  }
}
