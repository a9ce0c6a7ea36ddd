/** `get_concatenated_stamps`: a table's integer `sec` and `nanosec` columns
    joined into one stamp in seconds. */
module Stamps {

  /** The `sec` and `nanosec` fields of one row. */
  datatype StampFields = StampFields(sec: int, nanosec: int)

  const NanosPerSecond: int := 1000000000

  /** A nanosecond field in its usual range. */
  predicate Normalized(f: StampFields) { 0 <= f.nanosec < NanosPerSecond }

  /** `sec + nanosec / 1e9` for one row. */
  function Stamp(f: StampFields): real
  {
    f.sec as real + f.nanosec as real / NanosPerSecond as real
  }

  /** The stamp column of a whole table, row by row. */
  function GetConcatenatedStamps(data: seq<StampFields>): (r: seq<real>)
    ensures |r| == |data|
    ensures forall i :: 0 <= i < |data| ==> r[i] == Stamp(data[i])
  {
    seq(|data|, i requires 0 <= i < |data| => Stamp(data[i]))
  }

  /** A normalized stamp splits back into its two fields: the whole seconds
      are its floor and the rest, scaled, is the nanosecond field. */
  lemma StampRoundTrip(f: StampFields)
    requires Normalized(f)
    ensures Stamp(f).Floor == f.sec
    ensures (Stamp(f) - Stamp(f).Floor as real) * NanosPerSecond as real == f.nanosec as real
  {
    var frac := f.nanosec as real / NanosPerSecond as real;
    assert 0.0 <= frac < 1.0;
  }

  /** On normalized fields, stamps order rows as (sec, nanosec) pairs do. */
  lemma StampOrder(f: StampFields, g: StampFields)
    requires Normalized(f) && Normalized(g)
    ensures Stamp(f) < Stamp(g) <==> f.sec < g.sec || (f.sec == g.sec && f.nanosec < g.nanosec)
  {
    StampRoundTrip(f);
    StampRoundTrip(g);
  }
}
