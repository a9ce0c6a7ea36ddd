/** The two-dimensional deviation engine, `lateral_error.py`: every test row
    is bracketed by the last two pushes of the running-minimum scan over the
    reference, and its (x, y) is projected onto the line through them. */
module LateralError {
  import opened Wrappers
  import opened Geometry
  import opened Trajectory
  import opened NeighborScan
  import opened Reports

  /** `calc_distance_and_neighbor_point(a, b, p)`: the projection point of p
      onto the line through a and b, and its squared distance to p. numpy
      divides by `|b - a|`, so a bracket that coincides in x and y yields NaN
      instead of a point. */
  function CalcDistanceAndNeighborPoint(a: Point2, b: Point2, p: Point2): (r: Lateral)
    ensures r.Undefined? <==> a == b
    ensures r.Projected? ==>
      && OnLine(a, b, r.point)
      && Dot(Sub(p, r.point), Sub(b, a)) == 0.0
      && r.sqDist == SqDist(p, r.point)
  {
    if a == b then Undefined
    else
      var f := Foot(a, b, p);
      Projected(f, SqDist(p, f))
  }

  /** The lateral distance agrees with the independent point-to-line formula
      cross(b - a, p - a)^2 / |b - a|^2, and no point of the line is nearer
      to p than the projection point. */
  lemma ProjectionIsPointToLineDistance(a: Point2, b: Point2, p: Point2, q: Point2)
    requires a != b
    requires OnLine(a, b, q)
    ensures var r := CalcDistanceAndNeighborPoint(a, b, p);
      && r.sqDist * SqNorm(Sub(b, a)) == Cross(Sub(b, a), Sub(p, a)) * Cross(Sub(b, a), Sub(p, a))
      && r.sqDist <= SqDist(p, q)
  {
    FootSqDist(a, b, p);
    FootIsNearest(a, b, p, q);
  }

  /** The lateral distance is zero for a test point on the line and strictly
      positive off it; projecting the anchor gives the anchor back. */
  lemma ProjectionZeroOnLine(a: Point2, b: Point2, p: Point2)
    requires a != b
    ensures OnLine(a, b, p) ==> CalcDistanceAndNeighborPoint(a, b, p).sqDist == 0.0
    ensures !OnLine(a, b, p) ==> CalcDistanceAndNeighborPoint(a, b, p).sqDist > 0.0
    ensures CalcDistanceAndNeighborPoint(a, b, a).point == a
  {
    FootDistZero(a, b, p);
    FootFixesLine(a, b, a);
  }

  /** The calculation for one test row: scan the reference for the row's
      (x, y), take `ref1 = min_points[-1]` as the anchor and
      `ref2 = min_points[-2]` as the direction point. */
  function RowRecord(ref: seq<Sample>, row: Sample): (r: Result<Lateral, Error>)
    ensures r.Failure? ==> r.error == TooFewPoints
    ensures |ref| < 2 ==> r == Failure(TooFewPoints)
  {
    var ps := Points(ref, Pushed(Dists(ref, XY(row))));
    if |ps| < 2 then Failure(TooFewPoints)
    else Success(CalcDistanceAndNeighborPoint(Flat(ps[|ps| - 1]), Flat(ps[|ps| - 2]), XY(row)))
  }

  /** What `error_calc(ref_data, test_data)` computes before it writes any
      column. */
  function Report(ref: seq<Sample>, test: seq<Sample>): (r: Result<seq<Entry<Lateral>>, Error>)
    ensures r.Success? ==> |r.value| == |test|
  {
    Collect(RowFn(ref), test, |test|)
  }

  /** RowRecord with the reference fixed, as the row loop applies it. */
  function RowFn(ref: seq<Sample>): Sample -> Result<Lateral, Error>
  {
    row => RowRecord(ref, row)
  }

  /** A row has no bracket exactly when the reference is empty or its first
      row is already one of the nearest to the test row, so that the scan
      pushes it alone. */
  lemma RowRecordFails(ref: seq<Sample>, row: Sample)
    ensures RowRecord(ref, row).Failure? <==>
      |ref| == 0 || forall j :: 0 <= j < |ref| ==> Dist(ref[0], XY(row)) <= Dist(ref[j], XY(row))
    ensures RowRecord(ref, row).Failure? ==> RowRecord(ref, row).error == TooFewPoints
  {
    var ds := Dists(ref, XY(row));
    PushedAtLeastTwo(ds);
  }

  /** A row's bracket: the anchor is the first of the reference rows nearest
      to the test row in (x, y), the direction point is the first of the
      nearest rows before the anchor, and the two never coincide, so the
      lateral value is always defined in this mode. */
  lemma RowRecordBracket(ref: seq<Sample>, row: Sample)
    requires exists j :: 0 <= j < |ref| && Dist(ref[j], XY(row)) < Dist(ref[0], XY(row))
    ensures RowRecord(ref, row).Success?
    ensures var ds := Dists(ref, XY(row));
      exists m: nat, n: nat :: n < m && FirstNearest(ds, |ds|, m) && FirstNearest(ds, m, n)
        && RowRecord(ref, row).value == CalcDistanceAndNeighborPoint(XY(ref[m]), XY(ref[n]), XY(row))
    ensures RowRecord(ref, row).value.Projected?
  {
    var ds := Dists(ref, XY(row));
    var j :| 0 <= j < |ref| && Dist(ref[j], XY(row)) < Dist(ref[0], XY(row));
    assert ds[j] < ds[0];
    PushedAtLeastTwo(ds);
    var r := Pushed(ds);
    var m, n := r[|r| - 1], r[|r| - 2];
    RowRecordFromScan(ref, row, m, n);
    PushedBracket(ds);
    assert XY(ref[m]) != XY(ref[n]) by {
      assert ds[m] < ds[n];
    }
  }

  /** When the scan's last two pushes are rows m and n, the row is projected
      onto the line from row m through row n. */
  lemma RowRecordFromScan(ref: seq<Sample>, row: Sample, m: nat, n: nat)
    requires var r := Pushed(Dists(ref, XY(row))); |r| >= 2 && r[|r| - 1] == m && r[|r| - 2] == n
    ensures m < |ref| && n < |ref|
    ensures RowRecord(ref, row) == Success(CalcDistanceAndNeighborPoint(XY(ref[m]), XY(ref[n]), XY(row)))
  {
  }

  /** Reference (0, 0), (5, 0), (10, 0) and the test point (9, 0): the
      anchor is (10, 0) and the direction point (5, 0). */
  lemma ExampleBracket(ref: seq<Sample>)
    requires ref == [Sample(0.0, 0.0, 0.0, 0.0), Sample(1.0, 5.0, 0.0, 0.0), Sample(2.0, 10.0, 0.0, 0.0)]
    ensures RowRecord(ref, Sample(0.0, 9.0, 0.0, 0.0))
      == Success(CalcDistanceAndNeighborPoint(Point2(10.0, 0.0), Point2(5.0, 0.0), Point2(9.0, 0.0)))
  {
    var row := Sample(0.0, 9.0, 0.0, 0.0);
    ExampleDistances(ref);
    ExampleThreePushes(Dists(ref, XY(row)));
    RowRecordFromScan(ref, row, 2, 1);
  }

  /** `error_calc` either reports one entry per test row, in row order, with
      `elapsed[i] = t[i] - t[0]` and the row's own bracket, or fails with the
      error of its first unbracketable row. */
  lemma ReportRows(ref: seq<Sample>, test: seq<Sample>)
    ensures Report(ref, test).Success? <==> forall i :: 0 <= i < |test| ==> RowRecord(ref, test[i]).Success?
    ensures Report(ref, test).Success? ==>
      var es := Report(ref, test).value;
      && |es| == |test|
      && forall i :: 0 <= i < |test| ==>
        es[i] == Entry(test[i].stamp - test[0].stamp, RowRecord(ref, test[i]).value)
    ensures Report(ref, test).Failure? ==> Report(ref, test).error == TooFewPoints
  {
    var rec := RowFn(ref);
    CollectSuccess(rec, test, |test|);
    CollectFailure(rec, test, |test|);
    if Report(ref, test).Failure? {
      var i :| 0 <= i < |test| && rec(test[i]).Failure? && Report(ref, test).error == rec(test[i]).error;
      RowRecordFails(ref, test[i]);
    }
  }

  /** The first elapsed time is exactly zero. */
  lemma ReportFirstElapsedZero(ref: seq<Sample>, test: seq<Sample>)
    requires |test| > 0
    requires Report(ref, test).Success?
    ensures Report(ref, test).value[0].elapsed == 0.0
  {
    FirstElapsedZero(RowFn(ref), test);
  }

  /** The four columns `error_calc` adds to the test table. */
  function Columns(es: seq<Entry<Lateral>>): (cs: map<string, seq<Cell>>)
    ensures cs.Keys == {"elapsed_time", "lateral_error", "lateral_point.x", "lateral_point.y"}
    ensures forall name :: name in cs ==> |cs[name]| == |es|
  {
    map[
      "elapsed_time" := ElapsedColumn(es),
      "lateral_error" := LateralColumn(es),
      "lateral_point.x" := PointXColumn(es),
      "lateral_point.y" := PointYColumn(es)]
  }

  function LateralCell(l: Lateral): Cell { if l.Projected? then Num(l.sqDist) else NaN }
  function PointXCell(l: Lateral): Cell { if l.Projected? then Num(l.point.x) else NaN }
  function PointYCell(l: Lateral): Cell { if l.Projected? then Num(l.point.y) else NaN }

  function LateralColumn(es: seq<Entry<Lateral>>): (c: seq<Cell>)
    ensures |c| == |es|
  {
    seq(|es|, i requires 0 <= i < |es| => LateralCell(es[i].value))
  }

  function PointXColumn(es: seq<Entry<Lateral>>): (c: seq<Cell>)
    ensures |c| == |es|
  {
    seq(|es|, i requires 0 <= i < |es| => PointXCell(es[i].value))
  }

  function PointYColumn(es: seq<Entry<Lateral>>): (c: seq<Cell>)
    ensures |c| == |es|
  {
    seq(|es|, i requires 0 <= i < |es| => PointYCell(es[i].value))
  }

  /** `error_calc(ref_data, test_data)`: fills four lists row by row and then
      stores them as columns of `test_data`; an error raised on any row
      leaves the table as it was. */
  method ErrorCalc(refData: Frame, testData: Frame) returns (err: Option<Error>)
    modifies testData
    ensures match Report(refData.rows, testData.rows)
      case Failure(e) => err == Some(e) && testData.columns == old(testData.columns)
      case Success(es) => err == None && testData.columns == old(testData.columns) + Columns(es)
  {
    var ref := refData.rows;
    var test := testData.rows;
    ghost var rec := RowFn(ref);
    var elapsedT: seq<Cell> := [];
    var lateralErrors: seq<Cell> := [];
    var lateralPointsX: seq<Cell> := [];
    var lateralPointsY: seq<Cell> := [];
    var startT := 0.0;
    ghost var es: seq<Entry<Lateral>> := [];
    for i := 0 to |test|
      invariant Collect(rec, test, i) == Success(es)
      invariant testData.columns == old(testData.columns)
      invariant i > 0 ==> startT == test[0].stamp
      invariant Filled(es, elapsedT, lateralErrors, lateralPointsX, lateralPointsY)
    {
      var row := test[i];
      var currentT := row.stamp;
      if i == 0 {
        startT := currentT;
      }
      var target := XY(row);
      var minPoints := GetNeighborPoint(target, ref);
      if |minPoints| < 2 {
        CollectAppend(rec, test, i, es, RowRecord(ref, row));
        assert Report(ref, test) == Failure(TooFewPoints);
        return Some(TooFewPoints);
      }
      var lateral := CalcDistanceAndNeighborPoint(
        Flat(minPoints[|minPoints| - 1]), Flat(minPoints[|minPoints| - 2]), target);
      assert rec(row) == RowRecord(ref, row) == Success(lateral);
      ghost var es0, elapsedT0, lateralErrors0, xs0, ys0 :=
        es, elapsedT, lateralErrors, lateralPointsX, lateralPointsY;
      elapsedT := elapsedT + [Num(currentT - startT)];
      lateralErrors := lateralErrors + [LateralCell(lateral)];
      lateralPointsX := lateralPointsX + [PointXCell(lateral)];
      lateralPointsY := lateralPointsY + [PointYCell(lateral)];
      es := es + [Entry(currentT - startT, lateral)];
      RowStep(rec, test, i, startT, lateral, es0, elapsedT0, lateralErrors0, xs0, ys0,
              es, elapsedT, lateralErrors, lateralPointsX, lateralPointsY);
    }
    assert Report(ref, test) == Success(es);
    FilledColumns(es, elapsedT, lateralErrors, lateralPointsX, lateralPointsY);
    testData.columns := testData.columns + map[
      "elapsed_time" := elapsedT, "lateral_error" := lateralErrors,
      "lateral_point.x" := lateralPointsX, "lateral_point.y" := lateralPointsY];
    return None;
  }

  /** The four lists hold the columns of the entries computed so far. */
  ghost predicate Filled(es: seq<Entry<Lateral>>, elapsedT: seq<Cell>, lateralErrors: seq<Cell>,
                         xs: seq<Cell>, ys: seq<Cell>)
  {
    && elapsedT == ElapsedColumn(es)
    && lateralErrors == LateralColumn(es)
    && xs == PointXColumn(es)
    && ys == PointYColumn(es)
  }

  /** Lists that hold the columns of the entries are those columns. */
  lemma FilledColumns(es: seq<Entry<Lateral>>, elapsedT: seq<Cell>, lateralErrors: seq<Cell>,
                      xs: seq<Cell>, ys: seq<Cell>)
    requires Filled(es, elapsedT, lateralErrors, xs, ys)
    ensures Columns(es) == map[
      "elapsed_time" := elapsedT, "lateral_error" := lateralErrors,
      "lateral_point.x" := xs, "lateral_point.y" := ys]
  {
  }

  /** One pass of the row loop over a row whose calculation succeeds: its
      entry joins the report and its cells join the four lists. */
  lemma RowStep(rec: Sample -> Result<Lateral, Error>, test: seq<Sample>, i: nat, startT: real, lateral: Lateral,
                es: seq<Entry<Lateral>>, elapsedT: seq<Cell>, lateralErrors: seq<Cell>, xs: seq<Cell>, ys: seq<Cell>,
                es': seq<Entry<Lateral>>, elapsedT': seq<Cell>, lateralErrors': seq<Cell>, xs': seq<Cell>, ys': seq<Cell>)
    requires i < |test| && startT == test[0].stamp
    requires Collect(rec, test, i) == Success(es)
    requires rec(test[i]) == Success(lateral)
    requires Filled(es, elapsedT, lateralErrors, xs, ys)
    requires es' == es + [Entry(test[i].stamp - startT, lateral)]
    requires elapsedT' == elapsedT + [Num(test[i].stamp - startT)]
    requires lateralErrors' == lateralErrors + [LateralCell(lateral)]
    requires xs' == xs + [PointXCell(lateral)]
    requires ys' == ys + [PointYCell(lateral)]
    ensures Collect(rec, test, i + 1) == Success(es')
    ensures Filled(es', elapsedT', lateralErrors', xs', ys')
  {
    CollectAppend(rec, test, i, es, Success(lateral));
    var e := es'[|es|];
    assert es' == es + [e];
    assert ElapsedColumn(es + [e]) == ElapsedColumn(es) + [Num(e.elapsed)];
    assert LateralColumn(es + [e]) == LateralColumn(es) + [LateralCell(e.value)];
    assert PointXColumn(es + [e]) == PointXColumn(es) + [PointXCell(e.value)];
    assert PointYColumn(es + [e]) == PointYColumn(es) + [PointYCell(e.value)];
  }
}
