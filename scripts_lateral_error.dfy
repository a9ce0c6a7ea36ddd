/** The three-dimensional deviation engine, `scripts/lateral_error.py`: the
    bracket of a test row comes from the running-minimum scan or from the
    time-sync pair, chosen by the mode string, and each row records an
    elapsed time, a lateral value and the signed height error against the
    anchor `min_points[-1]`. */
module ScriptsLateralError {
  import opened Wrappers
  import opened Geometry
  import opened Trajectory
  import opened NeighborScan
  import opened TimeSync
  import opened Reports
  import Planar = LateralError

  /** What the row loop keeps for one test row besides its elapsed time. */
  datatype Deviation = Deviation(lateral: Lateral, zErr: real)

  /** `calc_distance_and_neighbor_point(a_3d, b_3d, p_3d)`: the planar
      calculation on the x and y of the three points, and the height of p
      above the anchor a. */
  function CalcDistanceAndNeighborPoint(a: Point3, b: Point3, p: Point3): (r: Deviation)
    ensures r.lateral == Planar.CalcDistanceAndNeighborPoint(Flat(a), Flat(b), Flat(p))
    ensures a.z + r.zErr == p.z
  {
    Deviation(Planar.CalcDistanceAndNeighborPoint(Flat(a), Flat(b), Flat(p)), p.z - a.z)
  }

  /** The height error keeps its sign: positive above the anchor, negative
      below it, and it does not depend on the direction point. */
  lemma ZErrSign(a: Point3, b: Point3, b': Point3, p: Point3)
    ensures CalcDistanceAndNeighborPoint(a, b, p).zErr > 0.0 <==> p.z > a.z
    ensures CalcDistanceAndNeighborPoint(a, b, p).zErr < 0.0 <==> p.z < a.z
    ensures CalcDistanceAndNeighborPoint(a, b, p).zErr == CalcDistanceAndNeighborPoint(a, b', p).zErr
  {
  }

  /** The bracketing points of one test row, by mode. The neighbour mode
      compares x and y only and keeps the full positions of the pushed rows
      (see the findings in the README). */
  function MinPoints(ref: seq<Sample>, mode: string, row: Sample): (r: Result<seq<Point3>, Error>)
    ensures mode == "find_neighbor" ==> r.Success? && (|r.value| == 0 <==> |ref| == 0)
    ensures mode == "time_sync" ==> (r.Success? <==> |ref| > 0) && (r.Success? ==> |r.value| == 2)
    ensures mode == "time_sync" && r.Failure? ==> r.error == EmptyReference
    ensures mode != "find_neighbor" && mode != "time_sync" ==> r == Failure(NoModeSelected)
  {
    if mode == "find_neighbor" then Success(Points(ref, Pushed(Dists(ref, XY(row)))))
    else if mode == "time_sync" then GetTimesyncPoint(row.stamp, ref)
    else Failure(NoModeSelected)
  }

  /** The calculation for one test row: `ref1 = min_points[-1]` is the
      anchor, `ref2 = min_points[-2]` the direction point. */
  function RowRecord(ref: seq<Sample>, mode: string, row: Sample): (r: Result<Deviation, Error>)
    ensures mode == "find_neighbor" && r.Failure? ==> r.error == TooFewPoints
    ensures mode == "time_sync" ==> (r.Success? <==> |ref| > 0)
    ensures mode == "time_sync" && r.Failure? ==> r.error == EmptyReference
    ensures mode != "find_neighbor" && mode != "time_sync" ==> r == Failure(NoModeSelected)
  {
    match MinPoints(ref, mode, row)
    case Failure(e) => Failure(e)
    case Success(ps) =>
      if |ps| < 2 then Failure(TooFewPoints)
      else Success(CalcDistanceAndNeighborPoint(ps[|ps| - 1], ps[|ps| - 2], Position(row)))
  }

  /** RowRecord with the reference and the mode fixed. */
  function RowFn(ref: seq<Sample>, mode: string): Sample -> Result<Deviation, Error>
  {
    row => RowRecord(ref, mode, row)
  }

  /** What `error_calc(ref_data, test_data, mode)` computes before it writes
      any column. */
  function Report(ref: seq<Sample>, test: seq<Sample>, mode: string): (r: Result<seq<Entry<Deviation>>, Error>)
    ensures r.Success? ==> |r.value| == |test|
  {
    Collect(RowFn(ref, mode), test, |test|)
  }

  /** In neighbour mode a row has no bracket exactly when the reference is
      empty or its first row is already one of the nearest to the test row. */
  lemma NeighborRowFails(ref: seq<Sample>, row: Sample)
    ensures RowRecord(ref, "find_neighbor", row).Failure? <==>
      |ref| == 0 || forall j :: 0 <= j < |ref| ==> Dist(ref[0], XY(row)) <= Dist(ref[j], XY(row))
    ensures RowRecord(ref, "find_neighbor", row).Failure? ==>
      RowRecord(ref, "find_neighbor", row).error == TooFewPoints
  {
    PushedAtLeastTwo(Dists(ref, XY(row)));
  }

  /** When the scan's last two pushes are rows m and n, neighbour mode
      measures the row against the line from row m through row n, and its
      height against row m. */
  lemma NeighborRowFromScan(ref: seq<Sample>, row: Sample, m: nat, n: nat)
    requires var r := Pushed(Dists(ref, XY(row))); |r| >= 2 && r[|r| - 1] == m && r[|r| - 2] == n
    ensures m < |ref| && n < |ref|
    ensures RowRecord(ref, "find_neighbor", row)
      == Success(CalcDistanceAndNeighborPoint(Position(ref[m]), Position(ref[n]), Position(row)))
  {
  }

  /** In neighbour mode the anchor is the first reference row nearest to the
      test row in (x, y), the direction point is the first of the nearest
      rows before it, the lateral value is always defined, and the height
      error is measured against the anchor. */
  lemma NeighborRowBracket(ref: seq<Sample>, row: Sample)
    requires exists j :: 0 <= j < |ref| && Dist(ref[j], XY(row)) < Dist(ref[0], XY(row))
    ensures RowRecord(ref, "find_neighbor", row).Success?
    ensures var ds := Dists(ref, XY(row)); var d := RowRecord(ref, "find_neighbor", row).value;
      exists m: nat, n: nat :: n < m && FirstNearest(ds, |ds|, m) && FirstNearest(ds, m, n)
        && d == CalcDistanceAndNeighborPoint(Position(ref[m]), Position(ref[n]), Position(row))
        && d.zErr == row.z - ref[m].z
    ensures RowRecord(ref, "find_neighbor", row).value.lateral.Projected?
  {
    var ds := Dists(ref, XY(row));
    var j :| 0 <= j < |ref| && Dist(ref[j], XY(row)) < Dist(ref[0], XY(row));
    assert ds[j] < ds[0];
    PushedAtLeastTwo(ds);
    var r := Pushed(ds);
    var m, n := r[|r| - 1], r[|r| - 2];
    NeighborRowFromScan(ref, row, m, n);
    PushedBracket(ds);
    assert XY(ref[m]) != XY(ref[n]) by {
      assert ds[m] < ds[n];
    }
    var d := CalcDistanceAndNeighborPoint(Position(ref[m]), Position(ref[n]), Position(row));
    assert d.zErr == row.z - ref[m].z;
  }

  /** In time-sync mode a row fails only on an empty reference; otherwise the
      anchor is the row before the sync row k (the last row when k is the
      first), the direction point is row k, and the height error is measured
      against the anchor. */
  lemma TimeSyncRow(ref: seq<Sample>, row: Sample)
    ensures RowRecord(ref, "time_sync", row).Failure? <==> |ref| == 0
    ensures RowRecord(ref, "time_sync", row).Failure? ==>
      RowRecord(ref, "time_sync", row).error == EmptyReference
    ensures RowRecord(ref, "time_sync", row).Success? ==>
      var d := RowRecord(ref, "time_sync", row).value;
      exists k: nat :: (IsSyncIndex(ref, row.stamp, k)
        && d == CalcDistanceAndNeighborPoint(Position(ref[Before(k, |ref|)]), Position(ref[k]), Position(row))
        && d.zErr == row.z - ref[Before(k, |ref|)].z)
  {
  }

  /** A one-row reference brackets every test row with that row twice, so
      the lateral value is NaN while the height error is still defined. */
  lemma TimeSyncSingleRow(ref: seq<Sample>, row: Sample)
    requires |ref| == 1
    ensures RowRecord(ref, "time_sync", row).Success?
    ensures RowRecord(ref, "time_sync", row).value.lateral.Undefined?
    ensures RowRecord(ref, "time_sync", row).value.zErr == row.z - ref[0].z
  {
    TimeSyncRow(ref, row);
    var k: nat :| IsSyncIndex(ref, row.stamp, k)
      && RowRecord(ref, "time_sync", row).value ==
        CalcDistanceAndNeighborPoint(Position(ref[Before(k, 1)]), Position(ref[k]), Position(row));
    assert k == 0 && Before(k, 1) == 0;
  }

  /** A mode string that is neither mode fails on the first row. */
  lemma UnknownModeFails(ref: seq<Sample>, mode: string, row: Sample)
    requires mode != "find_neighbor" && mode != "time_sync"
    ensures RowRecord(ref, mode, row) == Failure(NoModeSelected)
  {
  }

  /** `error_calc` either reports one entry per test row, in row order, with
      `elapsed[i] = t[i] - t[0]` and the row's own deviation, or fails with
      the error of its first failing row. */
  lemma ReportRows(ref: seq<Sample>, test: seq<Sample>, mode: string)
    ensures Report(ref, test, mode).Success? <==>
      forall i :: 0 <= i < |test| ==> RowRecord(ref, mode, test[i]).Success?
    ensures Report(ref, test, mode).Success? ==>
      var es := Report(ref, test, mode).value;
      && |es| == |test|
      && forall i :: 0 <= i < |test| ==>
        es[i] == Entry(test[i].stamp - test[0].stamp, RowRecord(ref, mode, test[i]).value)
    ensures Report(ref, test, mode).Failure? ==>
      exists i :: 0 <= i < |test|
        && RowRecord(ref, mode, test[i]).Failure?
        && Report(ref, test, mode).error == RowRecord(ref, mode, test[i]).error
        && forall j :: 0 <= j < i ==> RowRecord(ref, mode, test[j]).Success?
  {
    CollectSuccess(RowFn(ref, mode), test, |test|);
    CollectFailure(RowFn(ref, mode), test, |test|);
  }

  /** The first elapsed time is exactly zero. */
  lemma ReportFirstElapsedZero(ref: seq<Sample>, test: seq<Sample>, mode: string)
    requires |test| > 0
    requires Report(ref, test, mode).Success?
    ensures Report(ref, test, mode).value[0].elapsed == 0.0
  {
    FirstElapsedZero(RowFn(ref, mode), test);
  }

  /** A time-sync run succeeds exactly when there is a reference row or no
      test row; a run with an unknown mode succeeds only on an empty test
      table. */
  lemma ReportOutcomeByMode(ref: seq<Sample>, test: seq<Sample>, mode: string)
    ensures mode == "time_sync" ==> (Report(ref, test, mode).Success? <==> |ref| > 0 || |test| == 0)
    ensures mode != "find_neighbor" && mode != "time_sync" ==>
      (Report(ref, test, mode).Success? <==> |test| == 0)
  {
    ReportRows(ref, test, mode);
    if |test| > 0 {
      TimeSyncRow(ref, test[0]);
      if mode != "find_neighbor" && mode != "time_sync" {
        UnknownModeFails(ref, mode, test[0]);
      }
    }
    if mode == "time_sync" && |ref| > 0 {
      forall i | 0 <= i < |test| ensures RowRecord(ref, mode, test[i]).Success? {
        TimeSyncRow(ref, test[i]);
      }
    }
  }

  /** The five columns `error_calc` adds to the test table. */
  function Columns(es: seq<Entry<Deviation>>): (cs: map<string, seq<Cell>>)
    ensures cs.Keys == {"elapsed_time", "xy_err", "z_err", "error_point.x", "error_point.y"}
    ensures forall name :: name in cs ==> |cs[name]| == |es|
  {
    map[
      "elapsed_time" := ElapsedColumn(es),
      "xy_err" := XyErrColumn(es),
      "z_err" := ZErrColumn(es),
      "error_point.x" := PointXColumn(es),
      "error_point.y" := PointYColumn(es)]
  }

  function XyErrColumn(es: seq<Entry<Deviation>>): (c: seq<Cell>)
    ensures |c| == |es|
  {
    seq(|es|, i requires 0 <= i < |es| => Planar.LateralCell(es[i].value.lateral))
  }

  /** The height error is a number on every row, NaN lateral or not. */
  function ZErrColumn(es: seq<Entry<Deviation>>): (c: seq<Cell>)
    ensures |c| == |es|
    ensures forall i :: 0 <= i < |es| ==> c[i] == Num(es[i].value.zErr)
  {
    seq(|es|, i requires 0 <= i < |es| => Num(es[i].value.zErr))
  }

  function PointXColumn(es: seq<Entry<Deviation>>): (c: seq<Cell>)
    ensures |c| == |es|
  {
    seq(|es|, i requires 0 <= i < |es| => Planar.PointXCell(es[i].value.lateral))
  }

  function PointYColumn(es: seq<Entry<Deviation>>): (c: seq<Cell>)
    ensures |c| == |es|
  {
    seq(|es|, i requires 0 <= i < |es| => Planar.PointYCell(es[i].value.lateral))
  }

  /** `error_calc(ref_data, test_data, mode)`: fills five lists row by row
      and then stores them as columns of `test_data`; an error raised on any
      row leaves the table as it was. */
  method ErrorCalc(refData: Frame, testData: Frame, mode: string) returns (err: Option<Error>)
    modifies testData
    ensures match Report(refData.rows, testData.rows, mode)
      case Failure(e) => err == Some(e) && testData.columns == old(testData.columns)
      case Success(es) => err == None && testData.columns == old(testData.columns) + Columns(es)
  {
    var ref := refData.rows;
    var test := testData.rows;
    ghost var rec := RowFn(ref, mode);
    var elapsedT: seq<Cell> := [];
    var xyErrors: seq<Cell> := [];
    var zErrors: seq<Cell> := [];
    var lateralPointsX: seq<Cell> := [];
    var lateralPointsY: seq<Cell> := [];
    var startT := 0.0;
    ghost var es: seq<Entry<Deviation>> := [];
    for i := 0 to |test|
      invariant Collect(rec, test, i) == Success(es)
      invariant testData.columns == old(testData.columns)
      invariant i > 0 ==> startT == test[0].stamp
      invariant Filled(es, elapsedT, xyErrors, zErrors, lateralPointsX, lateralPointsY)
    {
      var row := test[i];
      var currentT := row.stamp;
      if i == 0 {
        startT := currentT;
      }
      var res := RowDeviation(ref, mode, row);
      if res.Failure? {
        CollectAppend(rec, test, i, es, res);
        assert Report(ref, test, mode) == Failure(res.error);
        return Some(res.error);
      }
      var dev := res.value;
      ghost var es0, elapsedT0, xyErrors0, zErrors0, xs0, ys0 :=
        es, elapsedT, xyErrors, zErrors, lateralPointsX, lateralPointsY;
      elapsedT := elapsedT + [Num(currentT - startT)];
      xyErrors := xyErrors + [Planar.LateralCell(dev.lateral)];
      zErrors := zErrors + [Num(dev.zErr)];
      lateralPointsX := lateralPointsX + [Planar.PointXCell(dev.lateral)];
      lateralPointsY := lateralPointsY + [Planar.PointYCell(dev.lateral)];
      es := es + [Entry(currentT - startT, dev)];
      RowStep(rec, test, i, startT, dev, es0, elapsedT0, xyErrors0, zErrors0, xs0, ys0,
              es, elapsedT, xyErrors, zErrors, lateralPointsX, lateralPointsY);
    }
    assert Report(ref, test, mode) == Success(es);
    FilledColumns(es, elapsedT, xyErrors, zErrors, lateralPointsX, lateralPointsY);
    testData.columns := testData.columns + map[
      "elapsed_time" := elapsedT, "xy_err" := xyErrors, "z_err" := zErrors,
      "error_point.x" := lateralPointsX, "error_point.y" := lateralPointsY];
    return None;
  }

  /** The body of the row loop: the bracket by mode (raising where the
      source raises), then the calculation against `min_points[-1]` and
      `min_points[-2]`. */
  method RowDeviation(ref: seq<Sample>, mode: string, row: Sample) returns (res: Result<Deviation, Error>)
    ensures res == RowRecord(ref, mode, row)
  {
    var testP := Position(row);
    var minPoints: seq<Point3>;
    if mode == "find_neighbor" {
      minPoints := GetNeighborPoint(XY(row), ref);
    } else if mode == "time_sync" {
      var synced := GetTimesyncPoint(row.stamp, ref);
      if synced.Failure? {
        return Failure(synced.error);
      }
      minPoints := synced.value;
    } else {
      return Failure(NoModeSelected);
    }
    assert MinPoints(ref, mode, row) == Success(minPoints);
    if |minPoints| < 2 {
      return Failure(TooFewPoints);
    }
    var ref1 := minPoints[|minPoints| - 1];
    var ref2 := minPoints[|minPoints| - 2];
    return Success(CalcDistanceAndNeighborPoint(ref1, ref2, testP));
  }

  /** The five lists hold the columns of the entries computed so far. */
  ghost predicate Filled(es: seq<Entry<Deviation>>, elapsedT: seq<Cell>, xyErrors: seq<Cell>,
                         zErrors: seq<Cell>, xs: seq<Cell>, ys: seq<Cell>)
  {
    && elapsedT == ElapsedColumn(es)
    && xyErrors == XyErrColumn(es)
    && zErrors == ZErrColumn(es)
    && xs == PointXColumn(es)
    && ys == PointYColumn(es)
  }

  /** Lists that hold the columns of the entries are those columns. */
  lemma FilledColumns(es: seq<Entry<Deviation>>, elapsedT: seq<Cell>, xyErrors: seq<Cell>,
                      zErrors: seq<Cell>, xs: seq<Cell>, ys: seq<Cell>)
    requires Filled(es, elapsedT, xyErrors, zErrors, xs, ys)
    ensures Columns(es) == map[
      "elapsed_time" := elapsedT, "xy_err" := xyErrors, "z_err" := zErrors,
      "error_point.x" := xs, "error_point.y" := ys]
  {
  }

  /** One pass of the row loop over a row whose calculation succeeds: its
      entry joins the report and its cells join the five lists. */
  lemma RowStep(rec: Sample -> Result<Deviation, Error>, test: seq<Sample>, i: nat, startT: real, dev: Deviation,
                es: seq<Entry<Deviation>>, elapsedT: seq<Cell>, xyErrors: seq<Cell>, zErrors: seq<Cell>,
                xs: seq<Cell>, ys: seq<Cell>,
                es': seq<Entry<Deviation>>, elapsedT': seq<Cell>, xyErrors': seq<Cell>, zErrors': seq<Cell>,
                xs': seq<Cell>, ys': seq<Cell>)
    requires i < |test| && startT == test[0].stamp
    requires Collect(rec, test, i) == Success(es)
    requires rec(test[i]) == Success(dev)
    requires Filled(es, elapsedT, xyErrors, zErrors, xs, ys)
    requires es' == es + [Entry(test[i].stamp - startT, dev)]
    requires elapsedT' == elapsedT + [Num(test[i].stamp - startT)]
    requires xyErrors' == xyErrors + [Planar.LateralCell(dev.lateral)]
    requires zErrors' == zErrors + [Num(dev.zErr)]
    requires xs' == xs + [Planar.PointXCell(dev.lateral)]
    requires ys' == ys + [Planar.PointYCell(dev.lateral)]
    ensures Collect(rec, test, i + 1) == Success(es')
    ensures Filled(es', elapsedT', xyErrors', zErrors', xs', ys')
  {
    CollectAppend(rec, test, i, es, Success(dev));
    var e := es'[|es|];
    assert es' == es + [e];
    assert ElapsedColumn(es + [e]) == ElapsedColumn(es) + [Num(e.elapsed)];
    assert XyErrColumn(es + [e]) == XyErrColumn(es) + [Planar.LateralCell(e.value.lateral)];
    assert ZErrColumn(es + [e]) == ZErrColumn(es) + [Num(e.value.zErr)];
    assert PointXColumn(es + [e]) == PointXColumn(es) + [Planar.PointXCell(e.value.lateral)];
    assert PointYColumn(es + [e]) == PointYColumn(es) + [Planar.PointYCell(e.value.lateral)];
  }

  // The neighbour mode as written: the test point is the three-element
  // `[x, y, z]` and every reference point the two-element `[x, y]`.

  /** numpy's `u - v` on one-dimensional arrays: element by element on equal
      lengths, broadcast when one side has a single element, and a
      ValueError (None) otherwise. */
  function NpSub(u: seq<real>, v: seq<real>): (r: Option<seq<real>>)
    ensures r.Some? <==> |u| == |v| || |u| == 1 || |v| == 1
    ensures r.Some? && |u| == |v| ==> |r.value| == |u| && forall i :: 0 <= i < |u| ==> r.value[i] == u[i] - v[i]
  {
    if |u| == |v| then Some(seq(|u|, i requires 0 <= i < |u| => u[i] - v[i]))
    else if |u| == 1 then Some(seq(|v|, i requires 0 <= i < |v| => u[0] - v[i]))
    else if |v| == 1 then Some(seq(|u|, i requires 0 <= i < |u| => u[i] - v[0]))
    else None
  }

  /** The squared `np.linalg.norm` of a one-dimensional array. */
  function ArraySqNorm(v: seq<real>): real
  {
    if v == [] then 0.0 else ArraySqNorm(v[..|v| - 1]) + v[|v| - 1] * v[|v| - 1]
  }

  /** `get_neighbor_point(test_p, find_src)` exactly as the scripts copy calls
      it: the pushed two-element points and the running minimum, or None
      where the subtraction raises. */
  function ScanAsWritten(target: seq<real>, ref: seq<Sample>): (r: Option<(seq<seq<real>>, Option<real>)>)
    ensures r.Some? ==> |r.value.0| <= |ref| && (r.value.0 == [] <==> r.value.1.None?)
    ensures r.Some? ==> forall k :: 0 <= k < |r.value.0| ==> |r.value.0[k]| == 2
  {
    if ref == [] then Some(([], None))
    else
      match ScanAsWritten(target, ref[..|ref| - 1])
      case None => None
      case Some(state) =>
        var b := [ref[|ref| - 1].x, ref[|ref| - 1].y];
        match NpSub(b, target)
        case None => None
        case Some(ab) =>
          var dist := ArraySqNorm(ab);
          if state.1.None? || dist < state.1.value then Some((state.0 + [b], Some(dist)))
          else Some(state)
  }

  /** With the three-element test point, the scan raises on the first
      reference row, and on an empty reference it pushes nothing, so
      `min_points[-1]` raises: the neighbour mode as written brackets no
      test row at all. */
  lemma {:induction false} ScanAsWrittenNeverBrackets(target: seq<real>, ref: seq<Sample>)
    requires |target| == 3
    ensures |ref| > 0 ==> ScanAsWritten(target, ref).None?
    ensures |ref| == 0 ==> ScanAsWritten(target, ref) == Some(([], None))
  {
    if |ref| > 1 {
      ScanAsWrittenNeverBrackets(target, ref[..|ref| - 1]);
    } else if |ref| == 1 {
      assert ref[..0] == [];
      assert NpSub([ref[0].x, ref[0].y], target).None?;
    }
  }
}
