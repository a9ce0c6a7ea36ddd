/** The data the deviation engine reads and writes: rows of a trajectory
    table, positions, the cells of the columns it adds to the test table,
    and the ways a run can fail. */
module Trajectory {
  import opened Geometry

  /** One row of a trajectory table: the columns `msg.header.stamp`, `x`, `y`
      and `z`. A table is a `seq<Sample>` in row order, indexed from 0. */
  datatype Sample = Sample(stamp: real, x: real, y: real, z: real)

  /** A three-element position array `[x, y, z]`. */
  datatype Point3 = Point3(x: real, y: real, z: real)

  /** The `[x, y]` array of a row. */
  function XY(s: Sample): Point2 { Point2(s.x, s.y) }

  /** The `[x, y, z]` array of a row. */
  function Position(s: Sample): Point3 { Point3(s.x, s.y, s.z) }

  /** The slice `p[0:2]` of a position. */
  function Flat(p: Point3): Point2 { Point2(p.x, p.y) }

  /** A cell of an output column: a number, or the NaN that numpy produces
      when the bracketing pair coincides in x and y. */
  datatype Cell = Num(value: real) | NaN

  /** The lateral part of one error record: the projection point and the
      squared lateral distance, or `Undefined` where the source divides by a
      zero norm and stores NaN. */
  datatype Lateral = Projected(point: Point2, sqDist: real) | Undefined

  /** Why a run of `error_calc` aborts; no column is written when it does. */
  datatype Error =
    | EmptyReference   // `idxmin` of an empty stamp column raises ValueError
    | TooFewPoints     // `min_points[-1]` or `min_points[-2]` raises IndexError
    | NoModeSelected   // neither mode matched: `min_points` is unbound

  /** The test table that `error_calc` extends in place: its input rows, and
      the columns it has been given so far, by name. */
  class Frame {
    const rows: seq<Sample>
    var columns: map<string, seq<Cell>>

    constructor (rows: seq<Sample>)
      ensures this.rows == rows && columns == map[]
    {
      this.rows := rows;
      columns := map[];
    }
  }
}
