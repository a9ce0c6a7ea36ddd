/** `get_timesync_point`: bracket a test stamp with the reference row whose
    stamp is closest to it (the first such row, as `idxmin` picks it) and the
    row before that one, taken by position, so that position -1 is the last
    row. */
module TimeSync {
  import opened Wrappers
  import opened Trajectory

  function Abs(x: real): real { if x < 0.0 then -x else x }

  /** k is the first row whose stamp is nearest to t: no row is nearer, and
      every row before k is strictly farther. */
  ghost predicate IsSyncIndex(ref: seq<Sample>, t: real, k: nat)
  {
    && k < |ref|
    && (forall i :: 0 <= i < |ref| ==> Abs(ref[k].stamp - t) <= Abs(ref[i].stamp - t))
    && (forall i :: 0 <= i < k ==> Abs(ref[k].stamp - t) < Abs(ref[i].stamp - t))
  }

  /** `stamps.sub(t).abs().idxmin()` on a 0-based index. */
  function SyncIndex(ref: seq<Sample>, t: real): (k: nat)
    requires |ref| > 0
    ensures IsSyncIndex(ref, t, k)
  {
    if |ref| == 1 then 0
    else
      var k := SyncIndex(ref[..|ref| - 1], t);
      var last := |ref| - 1;
      if Abs(ref[last].stamp - t) < Abs(ref[k].stamp - t) then last else k
  }

  /** At most one row is the first nearest one. */
  lemma SyncIndexUnique(ref: seq<Sample>, t: real, k1: nat, k2: nat)
    requires IsSyncIndex(ref, t, k1) && IsSyncIndex(ref, t, k2)
    ensures k1 == k2
  {
    // Both are nearest, so they are equally near; a strict inequality
    // towards the earlier one rules out either being later.
    assert Abs(ref[k1].stamp - t) == Abs(ref[k2].stamp - t);
  }

  /** The position `iloc[k - 1]` reads: the row before k, or the last row when
      k is the first one. */
  function Before(k: nat, n: nat): (j: nat)
    requires k < n
    ensures j < n
    ensures j == k - 1 || (k == 0 && j == n - 1)
  {
    if k == 0 then n - 1 else k - 1
  }

  /** `get_timesync_point(time, find_src)`: `[ref[k], ref[k - 1]]` for the sync
      index k; an empty reference makes `idxmin` raise. */
  function GetTimesyncPoint(time: real, findSrc: seq<Sample>): (r: Result<seq<Point3>, Error>)
    ensures r.Failure? <==> |findSrc| == 0
    ensures r.Failure? ==> r.error == EmptyReference
    ensures r.Success? ==> (
      && |r.value| == 2
      && exists k: nat :: (IsSyncIndex(findSrc, time, k)
        && r.value[0] == Position(findSrc[k])
        && r.value[1] == Position(findSrc[Before(k, |findSrc|)])))
  {
    if |findSrc| == 0 then Failure(EmptyReference)
    else
      var k := SyncIndex(findSrc, time);
      Success([Position(findSrc[k]), Position(findSrc[Before(k, |findSrc|)])])
  }

  /** Stamps 0, 1, 2, 3 and a test stamp of 1.4: the sync row is 1 and the
      pair is rows 1 and 0: the row before the sync row, not the one after
      it. */
  lemma ExampleSyncPair()
    ensures var ref := [Sample(0.0, 0.0, 0.0, 0.0), Sample(1.0, 1.0, 0.0, 0.0),
                        Sample(2.0, 2.0, 0.0, 0.0), Sample(3.0, 3.0, 0.0, 0.0)];
      GetTimesyncPoint(1.4, ref) == Success([Point3(1.0, 0.0, 0.0), Point3(0.0, 0.0, 0.0)])
  {
    var ref := [Sample(0.0, 0.0, 0.0, 0.0), Sample(1.0, 1.0, 0.0, 0.0),
                Sample(2.0, 2.0, 0.0, 0.0), Sample(3.0, 3.0, 0.0, 0.0)];
    var k := SyncIndex(ref, 1.4);
    assert Abs(ref[1].stamp - 1.4) < Abs(ref[0].stamp - 1.4);
    assert Abs(ref[1].stamp - 1.4) < Abs(ref[2].stamp - 1.4);
    assert Abs(ref[1].stamp - 1.4) < Abs(ref[3].stamp - 1.4);
    assert IsSyncIndex(ref, 1.4, 1);
    SyncIndexUnique(ref, 1.4, k, 1);
  }

  /** A test stamp nearest to the first row wraps the pair around to the
      last row. */
  lemma ExampleSyncWraps()
    ensures var ref := [Sample(0.0, 0.0, 0.0, 0.0), Sample(1.0, 1.0, 0.0, 0.0), Sample(2.0, 2.0, 0.0, 0.0)];
      GetTimesyncPoint(0.2, ref) == Success([Point3(0.0, 0.0, 0.0), Point3(2.0, 0.0, 0.0)])
  {
    var ref := [Sample(0.0, 0.0, 0.0, 0.0), Sample(1.0, 1.0, 0.0, 0.0), Sample(2.0, 2.0, 0.0, 0.0)];
    var k := SyncIndex(ref, 0.2);
    assert Abs(ref[0].stamp - 0.2) < Abs(ref[1].stamp - 0.2);
    assert Abs(ref[0].stamp - 0.2) < Abs(ref[2].stamp - 0.2);
    assert IsSyncIndex(ref, 0.2, 0);
    SyncIndexUnique(ref, 0.2, k, 0);
  }
}
