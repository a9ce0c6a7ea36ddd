# Lateral and height error of a test trajectory against a reference

This project models the deviation engine of `error_calculator` in Dafny.
The engine appears twice: once in `lateral_error.py` (2D) and once in
`scripts/lateral_error.py` (3D, with two modes). For every row of a test
trajectory it does four things:

- It picks two reference points, `ref1 = min_points[-1]` (the anchor) and
  `ref2 = min_points[-2]`.
- It projects the test row's (x, y) onto the infinite line through them.
- It records the time elapsed since the first test row, the lateral error
  and the projection point.
- In the 3D copy it also records the height error `z - anchor.z`.

The results are stored as new columns of the test table.

There are two ways to pick the reference points:

- **Running-minimum scan** (`get_neighbor_point`). It pushes the first
  reference row. After that it pushes a row only when that row is strictly
  closer in (x, y) than the current minimum. The bracket is the last two
  pushes, which are in general not the two nearest rows.
- **Time sync** (`get_timesync_point`). It finds the first row k whose
  stamp is nearest to the test stamp and returns rows k and k - 1, taken by
  position. When k is the first row, k - 1 is the last row.

The modules are:

- `Geometry`: plane vectors, the orthogonal foot of a point on a line, and
  its properties.
- `Trajectory`: samples, positions, output cells, errors, and the `Frame`
  class. `Frame` is the test table whose columns `error_calc` assigns.
- `NeighborScan`: the scan as a method, proved against the index sequence
  `Pushed` of the rows it pushes, with lemmas on that sequence.
- `TimeSync`: the sync index and the bracket.
- `Stamps`: `get_concatenated_stamps`.
- `Reports`: the row loop shared by both drivers (one entry per row, first
  error aborts).
- `LateralError`: the 2D copy.
- `ScriptsLateralError`: the 3D copy.

Modelling choices:

- **Squared distances.** Every distance is kept squared, because
  `np.linalg.norm` is a square root. Comparing squared distances gives the
  same answer as comparing norms, so the scan pushes the same rows. The
  projection `a + ab * dot(ap, ab) / |ab|^2` is rational and is modelled
  exactly.
- **Coinciding pair.** When the two bracketing points coincide in x and y,
  numpy divides zero by zero. The row then gets NaN lateral cells and the
  loop goes on. The model gives that row the value `Undefined`, and
  `ErrorCalc` writes `NaN` cells for it.
- **Errors.** The source raises `ValueError`, `IndexError` or
  `UnboundLocalError` mid-loop. These become `Error` values. A failing row
  aborts the run before any column is written.

Four behaviours of the code a reader might not expect:

- A sync index of 0 does not fail. `iloc[-1]` wraps to the last reference
  row (`TimeSync.ExampleSyncWraps`).
- For reference stamps 0, 1, 2, 3 and a test stamp of 1.4, the pair is rows
  1 and 0: the row before the sync row, not the one after it
  (`TimeSync.ExampleSyncPair`). Its anchor, and so
  its height reference, is row 0.
- A coinciding bracket does not raise. It yields NaN.
- Too short a reference is not rejected up front. A row fails only when its
  own bracket cannot be built.

## Model

| member | source | states |
|---|---|---|
| Geometry.Foot | scripts/lateral_error.py:92-95 | the projection point lies on the line through a and b, and p minus it is perpendicular to b - a |
| Geometry.FootUnique | scripts/lateral_error.py:92-95 | any point of the line whose offset to p is perpendicular to the line is the projection point |
| Geometry.FootSqDist | scripts/lateral_error.py:92-96 | the squared lateral distance times the squared length of b - a equals the square of cross(b - a, p - a), the point-to-line formula |
| Geometry.Pythagoras | scripts/lateral_error.py:92-96 | for any point q of the line, the squared distance from p to q is the squared distance to the projection point plus the squared distance from the projection point to q |
| Geometry.FootIsNearest | scripts/lateral_error.py:92-96 | no point of the line is nearer to p than the projection point |
| Geometry.FootIsStrictlyNearest | scripts/lateral_error.py:92-96 | every other point of the line is strictly farther from p |
| Geometry.FootFixesLine | scripts/lateral_error.py:92-95 | p is its own projection exactly when p is on the line |
| Geometry.FootDistZero | scripts/lateral_error.py:92-96 | the lateral distance is zero for p on the line and strictly positive off it |
| NeighborScan.Dists | scripts/lateral_error.py:62-65 | one distance per reference row, in row order, each the squared xy distance of that row to the target |
| NeighborScan.Pushed | scripts/lateral_error.py:62-72 | every pushed index is a reference row, and a non-empty reference always pushes row 0 first |
| NeighborScan.Points | scripts/lateral_error.py:69-72 | the pushed points are the positions of the pushed rows, in push order |
| NeighborScan.GetNeighborPoint | lateral_error.py:45-63 | the loop returns exactly the positions of the rows `Pushed` selects, and the result is non-empty exactly when the reference is |
| NeighborScan.PushedPointsDecreasing | scripts/lateral_error.py:62-72 | the returned points get strictly closer to the target in push order |
| NeighborScan.PushedPrefix | scripts/lateral_error.py:62-72 | the scan of a prefix pushes a prefix of what the full scan pushes, and every later push comes from a later row |
| NeighborScan.PushedDecreasing | scripts/lateral_error.py:62-72 | pushed rows keep reference order and their distances strictly decrease |
| NeighborScan.PushedLastIsFirstNearest | scripts/lateral_error.py:62-72 | the last push is the first reference row at the global minimum distance |
| NeighborScan.PushedIffStrictRecord | lateral_error.py:51-61 | a row is pushed exactly when it is strictly closer than every earlier row, so ties are not pushed |
| NeighborScan.PushedAtLeastTwo | scripts/lateral_error.py:67-72 | at least two rows are pushed exactly when some row is strictly closer than row 0 |
| NeighborScan.PushedBracket | scripts/lateral_error.py:38-39 | with two or more pushes, the direction point `min_points[-2]` comes from an earlier row than the anchor `min_points[-1]` and is strictly farther; the anchor is the first nearest row, and the direction point is the first nearest row before it |
| NeighborScan.PenultimateIsNearestBefore | scripts/lateral_error.py:38-39 | the direction point `min_points[-2]` is the first nearest row among those before the anchor |
| NeighborScan.ExampleDistances | lateral_error.py:51-54 | reference (0,0), (5,0), (10,0) against the test point (9,0) has squared distances 81, 16, 1 |
| NeighborScan.ExampleThreePushes | lateral_error.py:51-61 | distances 81, 16, 1 push all three rows, so the bracket is the last two rows |
| TimeSync.SyncIndex | scripts/lateral_error.py:79 | the index is the first reference row whose stamp is nearest to the test stamp |
| TimeSync.SyncIndexUnique | scripts/lateral_error.py:79 | there is only one first-nearest row |
| TimeSync.Before | scripts/lateral_error.py:81 | the position before k is k - 1, or the last row when k is 0 |
| TimeSync.GetTimesyncPoint | scripts/lateral_error.py:76-85 | an empty reference raises, otherwise the result is exactly the positions of rows k and k - 1 (wrapping) for the sync index k |
| TimeSync.ExampleSyncPair | scripts/lateral_error.py:79-83 | stamps 0, 1, 2, 3 and test stamp 1.4 give rows 1 and 0 |
| TimeSync.ExampleSyncWraps | scripts/lateral_error.py:79-83 | a test stamp nearest to row 0 pairs row 0 with the last row |
| Stamps.GetConcatenatedStamps | scripts/lateral_error.py:102-103 | one stamp per row, `sec + nanosec / 1e9` |
| Stamps.StampRoundTrip | scripts/lateral_error.py:102-103 | for a nanosecond field in range, the floor of the stamp is `sec` and the scaled fraction is `nanosec` |
| Stamps.StampOrder | scripts/lateral_error.py:102-103 | for fields in range, stamps order rows as (sec, nanosec) pairs do |
| Reports.ElapsedColumn | scripts/lateral_error.py:48 | the elapsed column holds each entry's elapsed time, in order |
| Reports.Collect | scripts/lateral_error.py:21-47 | the row loop over the first n rows: on success one entry per row, the last holding that row's result; on failure the error of some row |
| Reports.CollectSuccess | scripts/lateral_error.py:21-29 | the row loop succeeds exactly when every row does, with one entry per row in order and elapsed time `t[i] - t[0]` |
| Reports.CollectFailure | scripts/lateral_error.py:21-41 | a failed loop carries the error of the first failing row |
| Reports.FirstElapsedZero | scripts/lateral_error.py:26-29 | the first row's elapsed time is exactly zero |
| Reports.FailureSticks | scripts/lateral_error.py:21-41 | once a row has failed, later rows do not change the outcome |
| LateralError.CalcDistanceAndNeighborPoint | lateral_error.py:66-72 | the result is undefined (NaN) exactly when a == b; otherwise the point is on the line, the offset is perpendicular to b - a, and the value is its squared distance to p |
| LateralError.ProjectionIsPointToLineDistance | lateral_error.py:66-72 | the lateral distance equals the independent point-to-line formula and is at most the distance from p to any point of the line |
| LateralError.ProjectionZeroOnLine | lateral_error.py:66-72 | the lateral distance is zero exactly for p on the line (positive off it), and projecting a gives a |
| LateralError.RowRecord | lateral_error.py:29-34 | the loop body for one row: a failure is always the IndexError of a missing bracket, and a reference of fewer than two rows always fails |
| LateralError.RowRecordFromScan | lateral_error.py:30-34 | when the scan's last two pushes are rows m and n, the row is projected onto the line from row m through row n |
| LateralError.ExampleBracket | lateral_error.py:29-34 | reference (0,0), (5,0), (10,0) and the test point (9,0): the anchor is (10,0) and the direction point (5,0) |
| LateralError.Report | lateral_error.py:21-39 | the whole row loop: on success one entry per test row |
| LateralError.RowRecordFails | lateral_error.py:30-32 | a row fails, with an IndexError, exactly when the reference is empty or its first row is already a nearest one |
| LateralError.RowRecordBracket | lateral_error.py:30-34 | when some reference row is strictly nearer than row 0, the row has a bracket: the anchor is the first nearest reference row, the direction point the first nearest row before it, and the lateral value is always defined |
| LateralError.ReportRows | lateral_error.py:21-43 | the run succeeds exactly when every row has a bracket, giving one entry per row in order with `elapsed[i] = t[i] - t[0]`, and its only error is the IndexError |
| LateralError.ReportFirstElapsedZero | lateral_error.py:24-27 | the first elapsed time is zero |
| LateralError.Columns | lateral_error.py:40-43 | exactly the four columns `elapsed_time`, `lateral_error`, `lateral_point.x`, `lateral_point.y`, each one cell per row |
| LateralError.ErrorCalc | lateral_error.py:13-43 | on error the table keeps its columns; otherwise the four columns of the report are added (replacing same-named ones) |
| ScriptsLateralError.CalcDistanceAndNeighborPoint | scripts/lateral_error.py:88-99 | the lateral part is the planar calculation on x and y only, and the height error is p.z minus the anchor's z |
| ScriptsLateralError.ZErrSign | scripts/lateral_error.py:98 | the height error is positive above the anchor and negative below it, whatever the direction point |
| ScriptsLateralError.MinPoints | scripts/lateral_error.py:33-36 | neighbour mode never fails at this stage and is empty only for an empty reference; time-sync mode gives two points and fails, with the empty-reference error, exactly for an empty reference; any other mode fails with the unbound `min_points` |
| ScriptsLateralError.RowRecord | scripts/lateral_error.py:31-41 | the loop body for one row: neighbour mode fails only for a missing bracket, time-sync mode succeeds exactly for a non-empty reference, any other mode fails |
| ScriptsLateralError.Report | scripts/lateral_error.py:21-47 | the whole row loop: on success one entry per test row |
| ScriptsLateralError.NeighborRowFails | scripts/lateral_error.py:33-39 | in neighbour mode a row fails, with an IndexError, exactly when the reference is empty or its first row is a nearest one |
| ScriptsLateralError.NeighborRowBracket | scripts/lateral_error.py:33-41 | in neighbour mode, when some reference row is strictly nearer than row 0, the row has a bracket: the anchor is the first nearest row, the direction point the first nearest before it, the lateral value is defined, and the height error is against the anchor |
| ScriptsLateralError.NeighborRowFromScan | scripts/lateral_error.py:33-41 | when the scan's last two pushes are rows m and n, neighbour mode measures the row against the line from row m through row n, with the height error against row m |
| ScriptsLateralError.TimeSyncRow | scripts/lateral_error.py:35-41 | in time-sync mode a row fails only on an empty reference; otherwise the anchor is row k - 1 (wrapping), the direction point row k, and the height error is against row k - 1 |
| ScriptsLateralError.TimeSyncSingleRow | scripts/lateral_error.py:79-83 | a one-row reference pairs that row with itself, so the lateral value is NaN while the height error is defined |
| ScriptsLateralError.UnknownModeFails | scripts/lateral_error.py:33-38 | a mode string other than the two modes leaves `min_points` unbound and the row fails |
| ScriptsLateralError.ReportRows | scripts/lateral_error.py:21-52 | the run succeeds exactly when every row does, with one entry per row in order and `elapsed[i] = t[i] - t[0]`, or fails with the first failing row's error |
| ScriptsLateralError.ReportFirstElapsedZero | scripts/lateral_error.py:26-29 | the first elapsed time is zero |
| ScriptsLateralError.ReportOutcomeByMode | scripts/lateral_error.py:33-39 | a time-sync run succeeds exactly when the reference is non-empty or there are no test rows; an unknown mode succeeds only without test rows |
| ScriptsLateralError.Columns | scripts/lateral_error.py:48-52 | exactly the five columns `elapsed_time`, `xy_err`, `z_err`, `error_point.x`, `error_point.y`, each one cell per row |
| ScriptsLateralError.ZErrColumn | scripts/lateral_error.py:50 | the `z_err` column is numeric on every row, NaN lateral or not |
| ScriptsLateralError.RowDeviation | scripts/lateral_error.py:31-41 | the loop body raises or computes exactly the row's specified deviation |
| ScriptsLateralError.ErrorCalc | scripts/lateral_error.py:10-52 | on error the table keeps its columns; otherwise the five columns of the report are added |
| ScriptsLateralError.NpSub | scripts/lateral_error.py:64 | numpy subtraction of one-dimensional arrays succeeds exactly for equal lengths or a one-element side, element by element on equal lengths |
| ScriptsLateralError.ScanAsWritten | scripts/lateral_error.py:56-73 | the scan as the scripts copy calls it: it pushes at most one two-element point per reference row, and it holds a running minimum exactly when it has pushed something |
| ScriptsLateralError.ScanAsWrittenNeverBrackets | scripts/lateral_error.py:31-39 | with the three-element test point the scan as written raises on any non-empty reference and pushes nothing on an empty one |

## Left out

- Plotting (`plot_2d`, `plot_xy_err`, `plot_z_err`, `plot_value`): presentation only.
- CSV reading, `to_csv` (scripts/lateral_error.py:53), the `__main__` blocks and the `sys.argv` reads at import time: file I/O. The `log_file` parameter is left out with it.
- `print` progress lines and the `progress.setRange`/`setValue` calls: side effects with no bearing on the result. The `progress` parameter is left out with them.
- calculator.py is not part of this model: it is a GUI caller of `error_calc`.
- Floating point: every value is an exact real. Rounding, and infinities from a nearly coinciding bracket, are not modelled.
- Lateral distances are squared norms. The `xy_err` and `lateral_error` cells hold the square of what the source stores. The projection point, the height error and every comparison of the scan are exact.
- Pandas labels: `idx == 0`, `idxmin` and `iloc` are modelled on a default 0-based row index, where labels equal positions. `idxmin` skipping NaN stamps is not modelled.
- The root copy pushes `[x, y]` arrays. The model pushes full positions and reads their x and y (`Flat`), which gives the same values.
- Columns already present in the test table are not modelled. `Frame.columns` holds only the columns `error_calc` assigns, and assigning a name again replaces its column.
- ScriptsLateralError.MinPoints: in neighbour mode it compares x and y and keeps full positions, the evidently intended behaviour. The crash of the code as written is in the findings.

## Findings

| source | as written | input that shows it | evidently intended | confidence | as-written member | corrected member |
|---|---|---|---|---|---|---|
| scripts/lateral_error.py:31-34, 64, 98 | in `find_neighbor` mode the three-element `test_p` is subtracted from the two-element `[x, y]` of each reference row, which numpy refuses (ValueError); had it passed, `a_3d[2]` would read a third element the pushed two-element points lack | any non-empty reference and any test row in mode `find_neighbor`; with an empty reference `min_points[-1]` raises instead, so no row ever gets a record | compare x and y only, as lateral_error.py:52-54 does, and keep the full positions so that `z_err` can be taken against the anchor | high, from numpy's broadcasting rules; not executed | ScriptsLateralError.ScanAsWrittenNeverBrackets | ScriptsLateralError.NeighborRowBracket |
