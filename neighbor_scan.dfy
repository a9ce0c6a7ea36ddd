/** The running-minimum scan `get_neighbor_point`, the same in both copies of
    the engine: walk the reference rows in order, push the first one, and
    after that push a row only when its xy distance to the target is strictly
    below the smallest distance seen so far. The caller brackets with the
    last two pushes, which are in general not the two nearest rows.

    Distances are squared (see Geometry); the comparisons are unchanged. */
module NeighborScan {
  import opened Wrappers
  import opened Geometry
  import opened Trajectory

  /** Squared xy distance from a reference row to the target. */
  function Dist(s: Sample, target: Point2): real { SqDist(XY(s), target) }

  /** The distance of every reference row to the target, in row order. The
      scan looks at nothing else. */
  function Dists(ref: seq<Sample>, target: Point2): (ds: seq<real>)
    ensures |ds| == |ref|
    ensures forall i :: 0 <= i < |ref| ==> ds[i] == Dist(ref[i], target)
  {
    seq(|ref|, i requires 0 <= i < |ref| => Dist(ref[i], target))
  }

  /** The indices of the rows the scan pushes among the first n rows, in
      push order, given the distances of the rows. */
  function PushedUpTo(ds: seq<real>, n: nat): (r: seq<nat>)
    requires n <= |ds|
    ensures forall k :: 0 <= k < |r| ==> r[k] < n
    ensures n > 0 ==> |r| > 0 && r[0] == 0
  {
    if n == 0 then []
    else
      var prev := PushedUpTo(ds, n - 1);
      if prev == [] || ds[n - 1] < ds[prev[|prev| - 1]]
      then prev + [n - 1]
      else prev
  }

  /** The indices of the rows the whole scan pushes. */
  function Pushed(ds: seq<real>): (r: seq<nat>)
    ensures forall k :: 0 <= k < |r| ==> r[k] < |ds|
    ensures |ds| > 0 ==> |r| > 0 && r[0] == 0
  {
    PushedUpTo(ds, |ds|)
  }

  /** The positions of the rows at the given indices. */
  function Points(ref: seq<Sample>, idx: seq<nat>): (r: seq<Point3>)
    requires forall k :: 0 <= k < |idx| ==> idx[k] < |ref|
    ensures |r| == |idx|
    ensures forall k :: 0 <= k < |idx| ==> r[k] == Position(ref[idx[k]])
  {
    seq(|idx|, k requires 0 <= k < |idx| => Position(ref[idx[k]]))
  }

  /** Row i is strictly closer than every row before it. */
  ghost predicate StrictRecord(ds: seq<real>, i: nat)
    requires i < |ds|
  {
    forall j :: 0 <= j < i ==> ds[i] < ds[j]
  }

  /** Among the first n rows, row m is the first of the nearest ones. */
  ghost predicate FirstNearest(ds: seq<real>, n: nat, m: nat)
  {
    && m < n <= |ds|
    && (forall j :: 0 <= j < n ==> ds[m] <= ds[j])
    && (forall j :: 0 <= j < m ==> ds[m] < ds[j])
  }

  /** `get_neighbor_point(target, find_src)`: the positions of the pushed rows,
      in push order. */
  method GetNeighborPoint(target: Point2, findSrc: seq<Sample>) returns (minP: seq<Point3>)
    ensures minP == Points(findSrc, Pushed(Dists(findSrc, target)))
    ensures |minP| > 0 <==> |findSrc| > 0
  {
    ghost var ds := Dists(findSrc, target);
    var minDist: Option<real> := None;
    minP := [];
    ghost var idx: seq<nat> := [];
    for i := 0 to |findSrc|
      invariant idx == PushedUpTo(ds, i)
      invariant minP == Points(findSrc, idx)
      invariant minDist == if idx == [] then None else Some(ds[idx[|idx| - 1]])
    {
      var b := XY(findSrc[i]);
      var dist := SqDist(b, target);
      assert dist == ds[i];
      ghost var prev := idx;
      if minDist == None {
        minDist := Some(dist);
        minP := minP + [Position(findSrc[i])];
        idx := idx + [i];
        assert idx[|idx| - 1] == i;
      } else if dist < minDist.value {
        minDist := Some(dist);
        minP := minP + [Position(findSrc[i])];
        idx := idx + [i];
        assert idx[|idx| - 1] == i;
      }
      PushStep(findSrc, ds, i, prev);
    }
  }

  /** One row more: the scan pushes row i exactly when nothing is pushed yet
      or row i is strictly closer than the last push. */
  lemma PushStep(ref: seq<Sample>, ds: seq<real>, i: nat, prev: seq<nat>)
    requires i < |ds| == |ref|
    requires prev == PushedUpTo(ds, i)
    ensures prev == [] || ds[i] < ds[prev[|prev| - 1]] ==>
      PushedUpTo(ds, i + 1) == prev + [i]
      && Points(ref, prev + [i]) == Points(ref, prev) + [Position(ref[i])]
    ensures !(prev == [] || ds[i] < ds[prev[|prev| - 1]]) ==> PushedUpTo(ds, i + 1) == prev
  {
  }

  /** Indices strictly increase and distances strictly decrease along r. */
  ghost predicate PushOrder(ds: seq<real>, r: seq<nat>)
  {
    forall j, k :: 0 <= j < k < |r| ==> r[j] < r[k] < |ds| && ds[r[k]] < ds[r[j]]
  }

  /** Pushed indices strictly increase (the pushed rows keep reference order),
      and their distances strictly decrease, in push order. */
  lemma {:induction false} PushedDecreasing(ds: seq<real>, n: nat)
    requires n <= |ds|
    ensures PushOrder(ds, PushedUpTo(ds, n))
  {
    if n > 0 {
      PushedDecreasing(ds, n - 1);
      var prev := PushedUpTo(ds, n - 1);
      var r := PushedUpTo(ds, n);
      if r != prev && prev != [] {
        var last := prev[|prev| - 1];
        assert r == prev + [n - 1];
        assert ds[n - 1] < ds[last];
        forall j, k | 0 <= j < k < |r|
          ensures r[j] < r[k] < |ds| && ds[r[k]] < ds[r[j]]
        {
          if k == |r| - 1 && j < |prev| - 1 {
            assert ds[last] < ds[prev[j]];
          }
        }
      }
    }
  }

  /** The positions the scan pushes get strictly closer to the target. */
  lemma PushedPointsDecreasing(ref: seq<Sample>, target: Point2)
    ensures var ps := Points(ref, Pushed(Dists(ref, target)));
      forall j, k :: 0 <= j < k < |ps| ==> SqDist(Flat(ps[k]), target) < SqDist(Flat(ps[j]), target)
  {
    var ds := Dists(ref, target);
    var r := Pushed(ds);
    var ps := Points(ref, r);
    PushedDecreasing(ds, |ds|);
    forall j, k | 0 <= j < k < |ps|
      ensures SqDist(Flat(ps[k]), target) < SqDist(Flat(ps[j]), target)
    {
      assert Flat(ps[k]) == XY(ref[r[k]]) && Flat(ps[j]) == XY(ref[r[j]]);
      assert ds[r[k]] < ds[r[j]];
    }
  }

  /** The scan of the first i rows pushes a prefix of what the scan of the
      first n rows pushes, and everything the longer scan adds comes from row
      i or later. */
  lemma {:induction false} PushedPrefix(ds: seq<real>, i: nat, n: nat)
    requires i <= n <= |ds|
    ensures var p := PushedUpTo(ds, i); var r := PushedUpTo(ds, n);
      && |p| <= |r| && r[..|p|] == p
      && forall k :: |p| <= k < |r| ==> r[k] >= i
    decreases n
  {
    if i < n {
      PushedPrefix(ds, i, n - 1);
    }
  }

  /** The last push among the first n rows is the first of the nearest of
      those rows. */
  lemma {:induction false} LastIsFirstNearest(ds: seq<real>, n: nat)
    requires 0 < n <= |ds|
    ensures var r := PushedUpTo(ds, n); FirstNearest(ds, n, r[|r| - 1])
  {
    if n > 1 {
      LastIsFirstNearest(ds, n - 1);
      var prev := PushedUpTo(ds, n - 1);
      var q := prev[|prev| - 1];
      assert FirstNearest(ds, n - 1, q);
    }
  }

  /** The last push is the first of the nearest rows. */
  lemma PushedLastIsFirstNearest(ds: seq<real>)
    requires |ds| > 0
    ensures var r := Pushed(ds); FirstNearest(ds, |ds|, r[|r| - 1])
  {
    LastIsFirstNearest(ds, |ds|);
  }

  /** Whether row i is pushed is settled once the scan has passed it. */
  lemma {:induction false} PushedSettled(ds: seq<real>, i: nat, n: nat)
    requires i < n <= |ds|
    ensures i in PushedUpTo(ds, n) <==> i in PushedUpTo(ds, i + 1)
  {
    if n > i + 1 {
      PushedSettled(ds, i, n - 1);
      var prev := PushedUpTo(ds, n - 1);
      assert PushedUpTo(ds, n) == prev || PushedUpTo(ds, n) == prev + [n - 1];
    }
  }

  /** The scan pushes row i exactly when it is strictly closer than every
      row before it. */
  lemma PushedWhenReached(ds: seq<real>, i: nat)
    requires i < |ds|
    ensures i in PushedUpTo(ds, i + 1) <==> StrictRecord(ds, i)
  {
    var prev := PushedUpTo(ds, i);
    assert i !in prev;
    if i > 0 {
      LastIsFirstNearest(ds, i);
      var q := prev[|prev| - 1];
      assert FirstNearest(ds, i, q);
      if StrictRecord(ds, i) {
        assert ds[i] < ds[q];
      } else {
        var j :| 0 <= j < i && ds[i] >= ds[j];
        assert ds[q] <= ds[j];
      }
    }
  }

  /** A row is pushed exactly when it is strictly closer than every row before
      it; in particular a row that only ties the running minimum is not
      pushed. */
  lemma PushedIffStrictRecord(ds: seq<real>, i: nat)
    requires i < |ds|
    ensures i in Pushed(ds) <==> StrictRecord(ds, i)
  {
    PushedSettled(ds, i, |ds|);
    PushedWhenReached(ds, i);
  }

  /** `error_calc` needs two pushes. The scan pushes at least two rows exactly
      when some row is strictly closer than the first row, that is, when the
      first row is not already a nearest one. */
  lemma PushedAtLeastTwo(ds: seq<real>)
    ensures |Pushed(ds)| >= 2 <==> |ds| > 0 && exists j :: 0 <= j < |ds| && ds[j] < ds[0]
  {
    var r := Pushed(ds);
    if |ds| > 0 {
      LastIsFirstNearest(ds, |ds|);
      var m := r[|r| - 1];
      if |r| >= 2 {
        PushedDecreasing(ds, |ds|);
        assert ds[m] < ds[r[0]];
      }
    }
  }

  /** The direction point of the bracket, the second-to-last push, is the
      first of the nearest rows before the anchor, the last push. */
  lemma PenultimateIsNearestBefore(ds: seq<real>)
    requires |Pushed(ds)| >= 2
    ensures var r := Pushed(ds); FirstNearest(ds, r[|r| - 1], r[|r| - 2])
  {
    var r := Pushed(ds);
    var m := r[|r| - 1];
    PushedDecreasing(ds, |ds|);
    PushedPrefix(ds, m, |ds|);
    var p := PushedUpTo(ds, m);
    // The pushes below m are exactly all but the last push.
    assert r[|r| - 2] < m;
    assert |p| == |r| - 1;
    assert p[|p| - 1] == r[|r| - 2];
    LastIsFirstNearest(ds, m);
  }

  /** The bracket the two last pushes make: the anchor m is the first
      nearest row, the direction point n is the first nearest row before m,
      and n is strictly farther than m. */
  lemma PushedBracket(ds: seq<real>)
    requires |Pushed(ds)| >= 2
    ensures var r := Pushed(ds); var m, n := r[|r| - 1], r[|r| - 2];
      && n < m < |ds|
      && FirstNearest(ds, |ds|, m) && FirstNearest(ds, m, n)
      && ds[m] < ds[n]
  {
    PushedLastIsFirstNearest(ds);
    PenultimateIsNearestBefore(ds);
    PushedDecreasing(ds, |ds|);
  }

  /** Reference (0, 0), (5, 0), (10, 0) against the test point (9, 0): the
      squared distances are 81, 16 and 1. */
  lemma ExampleDistances(ref: seq<Sample>)
    requires ref == [Sample(0.0, 0.0, 0.0, 0.0), Sample(1.0, 5.0, 0.0, 0.0), Sample(2.0, 10.0, 0.0, 0.0)]
    ensures Dists(ref, Point2(9.0, 0.0)) == [81.0, 16.0, 1.0]
  {
    var ds := Dists(ref, Point2(9.0, 0.0));
    assert ds[0] == SqNorm(Point2(-9.0, 0.0)) == 81.0;
    assert ds[1] == SqNorm(Point2(-4.0, 0.0)) == 16.0;
    assert ds[2] == SqNorm(Point2(1.0, 0.0)) == 1.0;
  }

  /** With those distances every row improves on the running minimum, so
      the bracket is the last two rows, anchored at (10, 0). */
  lemma ExampleThreePushes(ds: seq<real>)
    requires ds == [81.0, 16.0, 1.0]
    ensures Pushed(ds) == [0, 1, 2]
  {
    assert ds[0] == 81.0 && ds[1] == 16.0 && ds[2] == 1.0;
    assert PushedUpTo(ds, 1) == [0];
    assert PushedUpTo(ds, 2) == [0, 1];
  }
}
