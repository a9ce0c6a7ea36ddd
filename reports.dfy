/** The row loop shared by both copies of `error_calc`: one entry per test
    row, in row order, each with the time elapsed since the first row, and
    the whole run aborted by the first row whose bracket cannot be built. */
module Reports {
  import opened Wrappers
  import opened Trajectory

  /** What the loop appends for one row: its elapsed time and the
      per-row result of the calculation. */
  datatype Entry<R> = Entry(elapsed: real, value: R)

  /** The entries of rows 0 .. n - 1 given the per-row calculation `rec`, or
      the error of the first row for which `rec` fails. */
  function Collect<R>(rec: Sample -> Result<R, Error>, test: seq<Sample>, n: nat): (r: Result<seq<Entry<R>>, Error>)
    requires n <= |test|
    ensures r.Success? ==> |r.value| == n
    ensures r.Success? && n > 0 ==> rec(test[n - 1]) == Success(r.value[n - 1].value)
    ensures r.Failure? ==> exists i :: 0 <= i < n && rec(test[i]) == Failure(r.error)
  {
    if n == 0 then Success([])
    else
      match Collect(rec, test, n - 1)
      case Failure(e) => Failure(e)
      case Success(es) =>
        match rec(test[n - 1])
        case Failure(e) => Failure(e)
        case Success(v) => Success(es + [Entry(test[n - 1].stamp - test[0].stamp, v)])
  }

  /** The `elapsed_time` column, the same in both copies. */
  function ElapsedColumn<R>(es: seq<Entry<R>>): (c: seq<Cell>)
    ensures |c| == |es|
    ensures forall i :: 0 <= i < |es| ==> c[i] == Num(es[i].elapsed)
  {
    seq(|es|, i requires 0 <= i < |es| => Num(es[i].elapsed))
  }

  /** The loop succeeds exactly when every row does, and then it holds one
      entry per row, in row order, with `elapsed[i] = t[i] - t[0]`. */
  lemma {:induction false} CollectSuccess<R>(rec: Sample -> Result<R, Error>, test: seq<Sample>, n: nat)
    requires n <= |test|
    ensures Collect(rec, test, n).Success? <==> forall i :: 0 <= i < n ==> rec(test[i]).Success?
    ensures Collect(rec, test, n).Success? ==>
      var es := Collect(rec, test, n).value;
      && |es| == n
      && forall i :: 0 <= i < n ==> es[i] == Entry(test[i].stamp - test[0].stamp, rec(test[i]).value)
  {
    if n > 0 {
      CollectSuccess(rec, test, n - 1);
    }
  }

  /** When the loop fails, it fails with the error of the first failing row. */
  lemma {:induction false} CollectFailure<R>(rec: Sample -> Result<R, Error>, test: seq<Sample>, n: nat)
    requires n <= |test|
    ensures Collect(rec, test, n).Failure? ==>
      exists i :: 0 <= i < n
        && rec(test[i]).Failure?
        && Collect(rec, test, n).error == rec(test[i]).error
        && forall j :: 0 <= j < i ==> rec(test[j]).Success?
  {
    if n > 0 {
      CollectFailure(rec, test, n - 1);
      CollectSuccess(rec, test, n - 1);
    }
  }

  /** The first row's elapsed time is exactly zero. */
  lemma FirstElapsedZero<R>(rec: Sample -> Result<R, Error>, test: seq<Sample>)
    requires |test| > 0
    ensures Collect(rec, test, |test|).Success? ==> Collect(rec, test, |test|).value[0].elapsed == 0.0
  {
    CollectSuccess(rec, test, |test|);
  }

  /** One more row, whose calculation gave `res`: its entry is appended, or
      its error is the outcome of the whole loop. */
  lemma CollectAppend<R>(rec: Sample -> Result<R, Error>, test: seq<Sample>, i: nat, es: seq<Entry<R>>,
                         res: Result<R, Error>)
    requires i < |test|
    requires Collect(rec, test, i) == Success(es)
    requires rec(test[i]) == res
    ensures res.Success? ==>
      Collect(rec, test, i + 1) == Success(es + [Entry(test[i].stamp - test[0].stamp, res.value)])
    ensures res.Failure? ==> Collect(rec, test, |test|) == Failure(res.error)
  {
    if res.Failure? {
      FailureSticks(rec, test, i + 1, |test|);
    }
  }

  /** A failure is final: the rows after it do not change the outcome. */
  lemma {:induction false} FailureSticks<R>(rec: Sample -> Result<R, Error>, test: seq<Sample>, n: nat, m: nat)
    requires n <= m <= |test|
    requires Collect(rec, test, n).Failure?
    ensures Collect(rec, test, m) == Collect(rec, test, n)
    decreases m
  {
    if m > n {
      FailureSticks(rec, test, n, m - 1);
    }
  }
}
