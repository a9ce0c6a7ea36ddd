/** Plane vector algebra over the reals, and the orthogonal projection of a
    point onto the infinite line through two distinct points.

    Norms are never taken: every distance is kept squared, so that the whole
    projection stays rational. Comparing two norms with `<` gives the same
    answer as comparing their squares, so nothing that only compares
    distances changes. */
module Geometry {

  datatype Point2 = Point2(x: real, y: real)

  const Origin := Point2(0.0, 0.0)

  function Add(u: Point2, v: Point2): Point2 { Point2(u.x + v.x, u.y + v.y) }

  function Sub(u: Point2, v: Point2): Point2 { Point2(u.x - v.x, u.y - v.y) }

  function Scale(k: real, v: Point2): Point2 { Point2(k * v.x, k * v.y) }

  function Dot(u: Point2, v: Point2): real { u.x * v.x + u.y * v.y }

  /** The z component of the 3D cross product of u and v. */
  function Cross(u: Point2, v: Point2): real { u.x * v.y - u.y * v.x }

  /** Squared Euclidean length. */
  function SqNorm(v: Point2): real { Dot(v, v) }

  /** Squared distance between two points. */
  function SqDist(p: Point2, q: Point2): real { SqNorm(Sub(p, q)) }

  lemma SqNormNonneg(v: Point2)
    ensures SqNorm(v) >= 0.0
  {
    calc {
      SqNorm(v);
      == v.x * v.x + v.y * v.y;
      >= 0.0;
    }
  }

  lemma SqNormPos(v: Point2)
    requires v != Origin
    ensures SqNorm(v) > 0.0
  {
    assert v.x != 0.0 || v.y != 0.0;
    calc {
      SqNorm(v);
      == v.x * v.x + v.y * v.y;
      > 0.0;
    }
  }

  /** A squared length is never negative, and it is zero exactly for the zero
      vector. */
  lemma SqNormZero(v: Point2)
    ensures SqNorm(v) >= 0.0
    ensures SqNorm(v) == 0.0 <==> v == Origin
  {
    SqNormNonneg(v);
    if v != Origin {
      SqNormPos(v);
    }
  }

  /** q lies on the infinite line through a and b. */
  predicate OnLine(a: Point2, b: Point2, q: Point2) {
    Cross(Sub(b, a), Sub(q, a)) == 0.0
  }

  /** The foot of the perpendicular from p onto the line through a and b:
      a + (b - a) * dot(p - a, b - a) / |b - a|^2. It is the only point of
      the line whose offset to p is perpendicular to the line (FootUnique). */
  function Foot(a: Point2, b: Point2, p: Point2): (f: Point2)
    requires a != b
    ensures OnLine(a, b, f)
    ensures Dot(Sub(p, f), Sub(b, a)) == 0.0
  {
    var d := Sub(b, a);
    SqNormPos(d);
    var n := SqNorm(d);
    var t := Dot(Sub(p, a), d) / n;
    assert t * n == Dot(Sub(p, a), d);
    Add(a, Scale(t, d))
  }

  /** Any point of the line whose offset to p is perpendicular to the line is
      the foot: the foot is the orthogonal projection and nothing else. */
  lemma FootUnique(a: Point2, b: Point2, p: Point2, q: Point2)
    requires a != b
    requires OnLine(a, b, q)
    requires Dot(Sub(p, q), Sub(b, a)) == 0.0
    ensures q == Foot(a, b, p)
  {
    var d := Sub(b, a);
    var w := Sub(q, a);
    var n := SqNorm(d);
    var s := Dot(Sub(p, a), d);
    SqNormPos(d);
    var t := s / n;
    assert Dot(w, d) == s;
    assert Cross(d, w) == 0.0;
    assert n * w.x == d.x * Dot(w, d) - d.y * Cross(d, w);
    assert n * w.y == d.y * Dot(w, d) + d.x * Cross(d, w);
    assert n * w.x == n * (t * d.x);
    assert n * w.y == n * (t * d.y);
    assert w == Scale(t, d);
  }

  /** Lagrange's identity in the plane: |u|^2 |v|^2 = (u . v)^2 + (u x v)^2. */
  lemma Lagrange(u: Point2, v: Point2)
    ensures SqNorm(u) * SqNorm(v) == Dot(u, v) * Dot(u, v) + Cross(u, v) * Cross(u, v)
  {
  }

  /** Dot product against a combination u - t v, expanded. */
  lemma DotSubScale(e: Point2, u: Point2, t: real, v: Point2)
    ensures Dot(e, Sub(u, Scale(t, v))) == Dot(e, u) - t * Dot(e, v)
  {
  }

  /** The squared distance from p to its foot is the classical point-to-line
      formula cross(b - a, p - a)^2 / |b - a|^2, stated here with the
      denominator multiplied out. */
  lemma FootSqDist(a: Point2, b: Point2, p: Point2)
    requires a != b
    ensures SqDist(p, Foot(a, b, p)) * SqNorm(Sub(b, a)) == Cross(Sub(b, a), Sub(p, a)) * Cross(Sub(b, a), Sub(p, a))
  {
    var d := Sub(b, a);
    var v := Sub(p, a);
    SqNormPos(d);
    var n := SqNorm(d);
    var s := Dot(v, d);
    var t := s / n;
    var c := Cross(d, v);
    var e := Sub(p, Foot(a, b, p));
    assert e == Sub(v, Scale(t, d));
    assert SqDist(p, Foot(a, b, p)) == SqNorm(v) - t * s by {
      SqDistToFoot(e, v, d, t, s);
    }
    Lagrange(d, v);
    assert Dot(d, v) == s && Cross(d, v) == c;
    QuotientStep(SqNorm(v), s, n, c);
  }

  /** The expansion of |v - t d|^2 when v - t d is perpendicular to d. */
  lemma SqDistToFoot(e: Point2, v: Point2, d: Point2, t: real, s: real)
    requires e == Sub(v, Scale(t, d))
    requires Dot(e, d) == 0.0
    requires Dot(v, d) == s
    ensures SqNorm(e) == SqNorm(v) - t * s
  {
    calc {
      SqNorm(e);
      Dot(e, Sub(v, Scale(t, d)));
      { DotSubScale(e, v, t, d); }
      Dot(e, v) - t * Dot(e, d);
      { assert Dot(e, d) == 0.0; }
      Dot(v, e);
      { DotSubScale(v, v, t, d); }
      SqNorm(v) - t * Dot(v, d);
      { assert Dot(v, d) == s; }
      SqNorm(v) - t * s;
    }
  }

  /** The real-number step that closes FootSqDist. */
  lemma QuotientStep(vv: real, s: real, n: real, c: real)
    requires n > 0.0
    requires n * vv == s * s + c * c
    ensures (vv - (s / n) * s) * n == c * c
  {
    assert (s / n) * s * n == s * s;
  }

  /** Pythagoras: the offset from the foot to any point q of the line is
      perpendicular to p - foot, so the squared distances add up. */
  lemma Pythagoras(a: Point2, b: Point2, p: Point2, q: Point2)
    requires a != b
    requires OnLine(a, b, q)
    ensures SqDist(p, q) == SqDist(p, Foot(a, b, p)) + SqDist(Foot(a, b, p), q)
  {
    var d := Sub(b, a);
    var f := Foot(a, b, p);
    var n := SqNorm(d);
    var w := Sub(f, q);
    assert OnLine(a, b, f);
    assert Cross(d, Sub(q, a)) == 0.0 && Cross(d, Sub(f, a)) == 0.0;
    assert Cross(d, w) == 0.0;
    // w is parallel to d, and p - f is perpendicular to d, hence to w.
    assert n * w.x == d.x * Dot(w, d) - d.y * Cross(d, w);
    assert n * w.y == d.y * Dot(w, d) + d.x * Cross(d, w);
    assert n * Dot(Sub(p, f), w) == Dot(w, d) * Dot(Sub(p, f), d);
    assert Dot(Sub(p, f), w) == 0.0;
    assert Sub(p, q) == Add(Sub(p, f), w);
  }

  /** The foot is the point of the line nearest to p. */
  lemma FootIsNearest(a: Point2, b: Point2, p: Point2, q: Point2)
    requires a != b
    requires OnLine(a, b, q)
    ensures SqDist(p, Foot(a, b, p)) <= SqDist(p, q)
  {
    var f := Foot(a, b, p);
    Pythagoras(a, b, p, q);
    SqNormNonneg(Sub(f, q));
    NearestStep(SqDist(p, f), SqDist(p, q), SqDist(f, q));
  }

  /** Every other point of the line is strictly farther from p. */
  lemma FootIsStrictlyNearest(a: Point2, b: Point2, p: Point2, q: Point2)
    requires a != b
    requires OnLine(a, b, q)
    requires q != Foot(a, b, p)
    ensures SqDist(p, Foot(a, b, p)) < SqDist(p, q)
  {
    var f := Foot(a, b, p);
    Pythagoras(a, b, p, q);
    assert Sub(f, q) != Origin;
    SqNormPos(Sub(f, q));
    StrictStep(SqDist(p, f), SqDist(p, q), SqDist(f, q));
  }

  lemma StrictStep(pf: real, pq: real, fq: real)
    requires pq == pf + fq && fq > 0.0
    ensures pf < pq
  {
  }

  /** The linear step of FootIsNearest, kept apart from the products. */
  lemma NearestStep(pf: real, pq: real, fq: real)
    requires pq == pf + fq && fq >= 0.0
    ensures pf <= pq
  {
  }

  /** A point already on the line is its own foot, and only such points are. */
  lemma FootFixesLine(a: Point2, b: Point2, p: Point2)
    requires a != b
    ensures Foot(a, b, p) == p <==> OnLine(a, b, p)
  {
    if OnLine(a, b, p) {
      assert Sub(p, p) == Origin;
      FootUnique(a, b, p, p);
    }
  }

  /** The distance from p to its foot is zero exactly when p is on the line:
      zero on the line, and strictly positive off it. */
  lemma FootDistZero(a: Point2, b: Point2, p: Point2)
    requires a != b
    ensures OnLine(a, b, p) ==> SqDist(p, Foot(a, b, p)) == 0.0
    ensures !OnLine(a, b, p) ==> SqDist(p, Foot(a, b, p)) > 0.0
  {
    var f := Foot(a, b, p);
    FootFixesLine(a, b, p);
    if OnLine(a, b, p) {
      assert Sub(p, f) == Origin;
    } else {
      assert Sub(p, f) != Origin;
      SqNormPos(Sub(p, f));
    }
  }
}
