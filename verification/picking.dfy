/** Picking (`SelectionManager.cs`, `findClosest*`,
    `distanceBetweenSegments`, `RayTriangleIntersect`): a scan over the
    element index for the element nearest to the mouse ray.

    Arithmetic is over the reals; single-precision rounding is not modelled.
    The camera supplies the ray origin and unit direction, and the
    point-to-line distance (a square root) is a parameter `lineDistance`. */
module Picking {
  import opened Outcomes
  import opened Geometry
  import opened ElementIndex

  /** `float.MaxValue`, the start value of every minimum. */
  const FloatMax: real := 340282346638528859811704183484516925440.0

  /** `rayMaker`: the ray is cast to a point this far along the direction. */
  const RayLength: real := 500.0

  /** `EPSILON` of `RayTriangleIntersect`. */
  const Epsilon: real := 0.0000001

  /** A pick result: shape index and element ID, both -1 for a miss. */
  datatype Pick = Pick(shape: int, element: int)

  const Miss: Pick := Pick(-1, -1)

  /** A score that the scan takes when the best so far is `bound`. */
  predicate Beats(score: Option<real>, bound: real) {
    score.Some? && score.value < bound
  }

  /** A score no greater than `bound`. */
  predicate AtMost(score: Option<real>, bound: real) {
    score.Some? && score.value <= bound
  }

  /** Position `(a, b)` comes before `(i, j)` in scan order. */
  predicate Earlier(a: int, b: int, i: int, j: int) {
    a < i || (a == i && b < j)
  }

  /** No element scanned before position `(i, j)` scores below `bound`. */
  ghost predicate NoneBeatsUpTo<R>(lists: seq<seq<R>>, score: R -> Option<real>, bound: real, i: int, j: int) {
    forall a, b :: 0 <= a < |lists| && 0 <= b < |lists[a]| && Earlier(a, b, i, j) ==> !Beats(score(lists[a][b]), bound)
  }

  /** Among the elements scanned before `(i, j)`, `(s, p)` is the first one
      with the least score, and that score is below `FloatMax`. */
  ghost predicate FirstMinimumUpTo<R>(lists: seq<seq<R>>, score: R -> Option<real>, s: int, p: int, best: real, i: int, j: int) {
    && 0 <= s < |lists| && 0 <= p < |lists[s]| && Earlier(s, p, i, j)
    && score(lists[s][p]) == Some(best) && best < FloatMax
    && NoneBeatsUpTo(lists, score, best, i, j)
    && forall a, b :: 0 <= a < |lists| && 0 <= b < |lists[a]| && Earlier(a, b, s, p) ==> !AtMost(score(lists[a][b]), best)
  }

  /** No element scores below `bound`. */
  ghost predicate NoneBeats<R>(lists: seq<seq<R>>, score: R -> Option<real>, bound: real) {
    NoneBeatsUpTo(lists, score, bound, |lists|, 0)
  }

  /** `(s, p)` is the first element with the least score, which is below
      `FloatMax`. */
  ghost predicate FirstMinimum<R>(lists: seq<seq<R>>, score: R -> Option<real>, s: int, p: int, best: real) {
    FirstMinimumUpTo(lists, score, s, p, best, |lists|, 0)
  }

  /** The double loop shared by the three `findClosest*` routines: walk the
      shapes and their elements in order and keep an element when it scores
      strictly below the best so far, which starts at `FloatMax`. */
  method ScanClosest<R>(lists: seq<seq<R>>, score: R -> Option<real>) returns (best: real, s: int, p: int)
    ensures best <= FloatMax
    ensures s == -1 <==> NoneBeats(lists, score, FloatMax)
    ensures s == -1 ==> best == FloatMax && p == -1
    ensures s != -1 ==> FirstMinimum(lists, score, s, p, best)
  {
    best, s, p := FloatMax, -1, -1;
    var i := 0;
    while i < |lists|
      invariant 0 <= i <= |lists|
      invariant best <= FloatMax
      invariant s == -1 <==> NoneBeatsUpTo(lists, score, FloatMax, i, 0)
      invariant s == -1 ==> best == FloatMax && p == -1
      invariant s != -1 ==> FirstMinimumUpTo(lists, score, s, p, best, i, 0)
    {
      var j := 0;
      while j < |lists[i]|
        invariant 0 <= j <= |lists[i]|
        invariant best <= FloatMax
        invariant s == -1 <==> NoneBeatsUpTo(lists, score, FloatMax, i, j)
        invariant s == -1 ==> best == FloatMax && p == -1
        invariant s != -1 ==> FirstMinimumUpTo(lists, score, s, p, best, i, j)
      {
        var sc := score(lists[i][j]);
        if sc.Some? && sc.value < best {
          best, s, p := sc.value, i, j;
        }
        j := j + 1;
      }
      i := i + 1;
    }
  }

  /** Some element scores no more than `margin` and below `FloatMax`. */
  ghost predicate SomeWithin<R>(lists: seq<seq<R>>, score: R -> Option<real>, margin: real) {
    exists a, b :: 0 <= a < |lists| && 0 <= b < |lists[a]| && AtMost(score(lists[a][b]), margin) && Beats(score(lists[a][b]), FloatMax)
  }

  /** `(s, p)` is the element the scan settles on. */
  ghost predicate Chosen<R>(lists: seq<seq<R>>, score: R -> Option<real>, s: int, p: int) {
    && 0 <= s < |lists| && 0 <= p < |lists[s]| && score(lists[s][p]).Some?
    && FirstMinimum(lists, score, s, p, score(lists[s][p]).value)
  }

  /** `(s, p)` is the element the scan settles on, and it scores within
      `margin`. */
  ghost predicate ChosenWithin<R>(lists: seq<seq<R>>, score: R -> Option<real>, s: int, p: int, margin: real) {
    Chosen(lists, score, s, p) && score(lists[s][p]).value <= margin
  }

  /** The ending of `findClosestPoint` and `findClosestCurve`: nothing when
      the least score exceeds the margin, otherwise the shape and the element
      ID of the first element with the least score. */
  method ClosestWithin<R>(lists: seq<seq<R>>, score: R -> Option<real>, id: R -> int, margin: real)
    returns (pick: Pick)
    ensures pick.shape == -1 <==> !SomeWithin(lists, score, margin)
    ensures pick.shape == -1 ==> pick == Miss
    ensures pick.shape != -1 ==>
              exists p :: ChosenWithin(lists, score, pick.shape, p, margin) && pick.element == id(lists[pick.shape][p])
  {
    var best, s, p := ScanClosest(lists, score);
    if best > margin {
      if s != -1 {
        forall a, b | 0 <= a < |lists| && 0 <= b < |lists[a]|
          ensures !(AtMost(score(lists[a][b]), margin) && Beats(score(lists[a][b]), FloatMax))
        {
          assert !Beats(score(lists[a][b]), best);
        }
      }
      return Miss;
    }
    if s == -1 {
      return Miss;
    }
    assert AtMost(score(lists[s][p]), margin) && Beats(score(lists[s][p]), FloatMax);
    assert ChosenWithin(lists, score, s, p, margin);
    return Pick(s, id(lists[s][p]));
  }

  /** `distanceFromSegment` as the score of a point record. */
  function PointScore(lineDistance: (Vec3, Vec3, Vec3) -> real, from: Vec3, to: Vec3): PointRec -> Option<real> {
    (rec: PointRec) => Some(lineDistance(from, to, rec.position))
  }

  /** `findClosestPoint`: the point record nearest to the line from the ray
      origin to `RayLength` along the ray, if within `margin`. */
  method FindClosestPoint(points: seq<seq<PointRec>>, from: Vec3, dir: Vec3, margin: real,
                          lineDistance: (Vec3, Vec3, Vec3) -> real)
    returns (pick: Pick)
    ensures var score := PointScore(lineDistance, from, Add(from, Scale(dir, RayLength)));
            && (pick.shape == -1 <==> !SomeWithin(points, score, margin))
            && (pick.shape == -1 ==> pick == Miss)
            && (pick.shape != -1 ==>
                  exists p :: ChosenWithin(points, score, pick.shape, p, margin) && pick.element == points[pick.shape][p].id)
  {
    var to := Add(from, Scale(dir, RayLength));
    pick := ClosestWithin(points, PointScore(lineDistance, from, to), (rec: PointRec) => rec.id, margin);
  }

  /** `distanceBetweenSegments`: the least of the distances of each end of one
      segment from the line through the other, kept below `FloatMax`. */
  function SegmentDistance(a1: Vec3, a2: Vec3, b1: Vec3, b2: Vec3, lineDistance: (Vec3, Vec3, Vec3) -> real): (r: real)
    ensures r <= FloatMax
    ensures r <= lineDistance(b1, b2, a1) && r <= lineDistance(b1, b2, a2)
    ensures r <= lineDistance(a1, a2, b1) && r <= lineDistance(a1, a2, b2)
    ensures r == FloatMax || r == lineDistance(b1, b2, a1) || r == lineDistance(b1, b2, a2)
            || r == lineDistance(a1, a2, b1) || r == lineDistance(a1, a2, b2)
  {
    var m0 := FloatMax;
    var d1 := lineDistance(b1, b2, a1);
    var m1 := if d1 < m0 then d1 else m0;
    var d2 := lineDistance(b1, b2, a2);
    var m2 := if d2 < m1 then d2 else m1;
    var d3 := lineDistance(a1, a2, b1);
    var m3 := if d3 < m2 then d3 else m2;
    var d4 := lineDistance(a1, a2, b2);
    if d4 < m3 then d4 else m3
  }

  /** `distanceBetweenSegments` between the ray segment and a curve record. */
  function CurveScore(lineDistance: (Vec3, Vec3, Vec3) -> real, from: Vec3, to: Vec3): CurveRec -> Option<real> {
    (rec: CurveRec) => Some(SegmentDistance(from, to, rec.start, rec.end, lineDistance))
  }

  /** `findClosestCurve`: the segment record nearest to the ray segment, if
      within `margin`; the pick names the curve the segment belongs to. */
  method FindClosestCurve(curves: seq<seq<CurveRec>>, from: Vec3, dir: Vec3, margin: real,
                          lineDistance: (Vec3, Vec3, Vec3) -> real)
    returns (pick: Pick)
    ensures var score := CurveScore(lineDistance, from, Add(from, Scale(dir, RayLength)));
            && (pick.shape == -1 <==> !SomeWithin(curves, score, margin))
            && (pick.shape == -1 ==> pick == Miss)
            && (pick.shape != -1 ==>
                  exists p :: ChosenWithin(curves, score, pick.shape, p, margin) && pick.element == curves[pick.shape][p].id)
  {
    var to := Add(from, Scale(dir, RayLength));
    pick := ClosestWithin(curves, CurveScore(lineDistance, from, to), (rec: CurveRec) => rec.id, margin);
  }

  /** The determinant `a = e1 . (dir x e2)` of the system
      `origin - v0 = u e1 + v e2 - t dir` of the Moller-Trumbore test. */
  function Determinant(dir: Vec3, v0: Vec3, v1: Vec3, v2: Vec3): real {
    Dot(Sub(v1, v0), Cross(dir, Sub(v2, v0)))
  }

  /** The solution `(u, v, t)` of that system, by the source's formulas. */
  datatype Solution = Solution(u: real, v: real, t: real)

  function Solve(origin: Vec3, dir: Vec3, v0: Vec3, v1: Vec3, v2: Vec3): Solution
    requires Determinant(dir, v0, v1, v2) != 0.0
  {
    Cramer(dir, Sub(v1, v0), Sub(v2, v0), Sub(origin, v0))
  }

  /** The source's formulas over the edges `e1`, `e2` and `s = origin - v0`:
      `h = d x e2`, `f = 1 / (e1 . h)`, `q = s x e1`. */
  function Cramer(d: Vec3, e1: Vec3, e2: Vec3, s: Vec3): Solution
    requires Dot(e1, Cross(d, e2)) != 0.0
  {
    var h := Cross(d, e2);
    var f := 1.0 / Dot(e1, h);
    var q := Cross(s, e1);
    Solution(f * Dot(s, h), f * Dot(d, q), f * Dot(e2, q))
  }

  /** `RayTriangleIntersect` (Moller-Trumbore): whether the ray
      `origin + t * dir` meets the triangle at some `t > Epsilon`, and that
      `t`; a ray within `Epsilon` of parallel to the triangle's plane misses.
      The tests run in the order of the source, each on the quantities it
      needs. */
  function RayTriangleIntersect(origin: Vec3, dir: Vec3, v0: Vec3, v1: Vec3, v2: Vec3): (r: (bool, real))
    ensures r.0 ==> r.1 > Epsilon
    ensures !r.0 ==> r.1 == 0.0
  {
    var a := Determinant(dir, v0, v1, v2);
    if -Epsilon < a < Epsilon then (false, 0.0)
    else
      var x := Solve(origin, dir, v0, v1, v2);
      if x.u < 0.0 || x.u > 1.0 then (false, 0.0)
      else if x.v < 0.0 || x.u + x.v > 1.0 then (false, 0.0)
      else if x.t > Epsilon then (true, x.t)
      else (false, 0.0)
  }

  /** Cramer's rule for the system `s = u e1 + v e2 - t d`, multiplied
      through by the determinant `a = e1 . (d x e2)`. */
  lemma CramerX(d: Vec3, e1: Vec3, e2: Vec3, s: Vec3)
    ensures var h := Cross(d, e2); var q := Cross(s, e1);
            Dot(e1, h) * s.x == Dot(s, h) * e1.x + Dot(d, q) * e2.x - Dot(e2, q) * d.x
  {
  }

  lemma CramerY(d: Vec3, e1: Vec3, e2: Vec3, s: Vec3)
    ensures var h := Cross(d, e2); var q := Cross(s, e1);
            Dot(e1, h) * s.y == Dot(s, h) * e1.y + Dot(d, q) * e2.y - Dot(e2, q) * d.y
  {
  }

  lemma CramerZ(d: Vec3, e1: Vec3, e2: Vec3, s: Vec3)
    ensures var h := Cross(d, e2); var q := Cross(s, e1);
            Dot(e1, h) * s.z == Dot(s, h) * e1.z + Dot(d, q) * e2.z - Dot(e2, q) * d.z
  {
  }

  /** One row of the system, divided through by the determinant. */
  lemma DivideThrough(a: real, sx: real, cu: real, cv: real, ct: real, px: real, qx: real, dx: real)
    requires a != 0.0 && a * sx == cu * px + cv * qx - ct * dx
    ensures sx == (1.0 / a * cu) * px + (1.0 / a * cv) * qx - (1.0 / a * ct) * dx
  {
    var f := 1.0 / a;
    assert f * a == 1.0;
    calc {
      sx;
      == (f * a) * sx;
      == f * (a * sx);
      == f * (cu * px + cv * qx - ct * dx);
      == (f * cu) * px + (f * cv) * qx - (f * ct) * dx;
    }
  }

  /** The point `v0 + u e1 + v e2` of the triangle's plane. */
  function PlanePoint(v0: Vec3, v1: Vec3, v2: Vec3, u: real, v: real): Vec3 {
    Add(v0, Add(Scale(Sub(v1, v0), u), Scale(Sub(v2, v0), v)))
  }

  /** The point at parameter `t` along the ray. */
  function RayPoint(origin: Vec3, dir: Vec3, t: real): Vec3 {
    Add(origin, Scale(dir, t))
  }

  /** The ray point at parameter `t` is a point of the triangle. */
  ghost predicate InTriangle(origin: Vec3, dir: Vec3, t: real, v0: Vec3, v1: Vec3, v2: Vec3) {
    exists u, v :: 0.0 <= u && 0.0 <= v && u + v <= 1.0 && RayPoint(origin, dir, t) == PlanePoint(v0, v1, v2, u, v)
  }

  /** A reported hit is a genuine intersection: the ray point at the
      reported distance lies in the triangle. */
  lemma {:induction false} HitLiesInTriangle(origin: Vec3, dir: Vec3, v0: Vec3, v1: Vec3, v2: Vec3)
    ensures var r := RayTriangleIntersect(origin, dir, v0, v1, v2);
            r.0 ==> InTriangle(origin, dir, r.1, v0, v1, v2)
  {
    var r := RayTriangleIntersect(origin, dir, v0, v1, v2);
    if r.0 {
      assert Determinant(dir, v0, v1, v2) != 0.0;
      var x := Solve(origin, dir, v0, v1, v2);
      assert r.1 == x.t && 0.0 <= x.u && 0.0 <= x.v && x.u + x.v <= 1.0;
      SolutionSolves(origin, dir, v0, v1, v2);
      assert RayPoint(origin, dir, x.t) == PlanePoint(v0, v1, v2, x.u, x.v);
    }
  }

  /** With a non-zero determinant the solution solves the system: the ray
      point at `t` is the plane point at `(u, v)`. */
  lemma SolutionSolves(origin: Vec3, dir: Vec3, v0: Vec3, v1: Vec3, v2: Vec3)
    requires Determinant(dir, v0, v1, v2) != 0.0
    ensures var x := Solve(origin, dir, v0, v1, v2);
            RayPoint(origin, dir, x.t) == PlanePoint(v0, v1, v2, x.u, x.v)
  {
    var e1 := Sub(v1, v0);
    var e2 := Sub(v2, v0);
    var s := Sub(origin, v0);
    var x := Solve(origin, dir, v0, v1, v2);
    CramerSolves(dir, e1, e2, s);
    SystemIffHit(origin, dir, v0, v1, v2, x.u, x.v, x.t);
  }

  /** Cramer's rule: with `a = e1 . (d x e2)` non-zero, the system
      `s = u e1 + v e2 - t d` is solved by `u = (s . (d x e2)) / a`,
      `v = (d . (s x e1)) / a`, `t = (e2 . (s x e1)) / a`. */
  lemma CramerSolves(d: Vec3, e1: Vec3, e2: Vec3, s: Vec3)
    requires Dot(e1, Cross(d, e2)) != 0.0
    ensures var x := Cramer(d, e1, e2, s);
            s == Sub(Add(Scale(e1, x.u), Scale(e2, x.v)), Scale(d, x.t))
  {
    var x := Cramer(d, e1, e2, s);
    SolutionRows(d, e1, e2, s);
    RowsGiveVector(s, e1, e2, d, x.u, x.v, x.t);
  }

  /** Cramer's rule divided through by a non-zero determinant, row by row. */
  lemma SolutionRows(d: Vec3, e1: Vec3, e2: Vec3, s: Vec3)
    requires Dot(e1, Cross(d, e2)) != 0.0
    ensures var x := Cramer(d, e1, e2, s);
            && s.x == x.u * e1.x + x.v * e2.x - x.t * d.x
            && s.y == x.u * e1.y + x.v * e2.y - x.t * d.y
            && s.z == x.u * e1.z + x.v * e2.z - x.t * d.z
  {
    RowX(d, e1, e2, s);
    RowY(d, e1, e2, s);
    RowZ(d, e1, e2, s);
  }

  lemma RowX(d: Vec3, e1: Vec3, e2: Vec3, s: Vec3)
    requires Dot(e1, Cross(d, e2)) != 0.0
    ensures var x := Cramer(d, e1, e2, s);
            s.x == x.u * e1.x + x.v * e2.x - x.t * d.x
  {
    CramerX(d, e1, e2, s);
    DivideThrough(Dot(e1, Cross(d, e2)), s.x, Dot(s, Cross(d, e2)), Dot(d, Cross(s, e1)), Dot(e2, Cross(s, e1)), e1.x, e2.x, d.x);
  }

  lemma RowY(d: Vec3, e1: Vec3, e2: Vec3, s: Vec3)
    requires Dot(e1, Cross(d, e2)) != 0.0
    ensures var x := Cramer(d, e1, e2, s);
            s.y == x.u * e1.y + x.v * e2.y - x.t * d.y
  {
    CramerY(d, e1, e2, s);
    DivideThrough(Dot(e1, Cross(d, e2)), s.y, Dot(s, Cross(d, e2)), Dot(d, Cross(s, e1)), Dot(e2, Cross(s, e1)), e1.y, e2.y, d.y);
  }

  lemma RowZ(d: Vec3, e1: Vec3, e2: Vec3, s: Vec3)
    requires Dot(e1, Cross(d, e2)) != 0.0
    ensures var x := Cramer(d, e1, e2, s);
            s.z == x.u * e1.z + x.v * e2.z - x.t * d.z
  {
    CramerZ(d, e1, e2, s);
    DivideThrough(Dot(e1, Cross(d, e2)), s.z, Dot(s, Cross(d, e2)), Dot(d, Cross(s, e1)), Dot(e2, Cross(s, e1)), e1.z, e2.z, d.z);
  }

  lemma RowsGiveVector(s: Vec3, e1: Vec3, e2: Vec3, d: Vec3, u: real, v: real, t: real)
    requires s.x == u * e1.x + v * e2.x - t * d.x
    requires s.y == u * e1.y + v * e2.y - t * d.y
    requires s.z == u * e1.z + v * e2.z - t * d.z
    ensures s == Sub(Add(Scale(e1, u), Scale(e2, v)), Scale(d, t))
  {
  }

  /** The ray point at `t` is the plane point at `(u, v)` exactly when
      `origin - v0 = u e1 + v e2 - t dir`. */
  lemma SystemIffHit(origin: Vec3, dir: Vec3, v0: Vec3, v1: Vec3, v2: Vec3, u: real, v: real, t: real)
    ensures RayPoint(origin, dir, t) == PlanePoint(v0, v1, v2, u, v) <==>
            Sub(origin, v0) == Sub(Add(Scale(Sub(v1, v0), u), Scale(Sub(v2, v0), v)), Scale(dir, t))
  {
  }

  /** Conversely, when the ray is not near parallel to the triangle's plane,
      every intersection beyond `Epsilon` is reported, with its distance. */
  lemma {:induction false} TriangleHitIsReported(origin: Vec3, dir: Vec3, v0: Vec3, v1: Vec3, v2: Vec3, t: real, u: real, v: real)
    requires Determinant(dir, v0, v1, v2) <= -Epsilon || Determinant(dir, v0, v1, v2) >= Epsilon
    requires t > Epsilon && 0.0 <= u && 0.0 <= v && u + v <= 1.0
    requires RayPoint(origin, dir, t) == PlanePoint(v0, v1, v2, u, v)
    ensures RayTriangleIntersect(origin, dir, v0, v1, v2) == (true, t)
  {
    var e1 := Sub(v1, v0);
    var e2 := Sub(v2, v0);
    var h := Cross(dir, e2);
    var a := Dot(e1, h);
    var s := Sub(origin, v0);
    var q := Cross(s, e1);
    SystemIffHit(origin, dir, v0, v1, v2, u, v, t);
    ExpandU(dir, e1, e2, u, v, t);
    ExpandV(dir, e1, e2, u, v, t);
    ExpandT(dir, e1, e2, u, v, t);
    Cancel(a, u);
    Cancel(a, v);
    Cancel(a, t);
    assert Solve(origin, dir, v0, v1, v2) == Solution(u, v, t);
  }

  lemma Cancel(a: real, x: real)
    requires a != 0.0
    ensures (1.0 / a) * (x * a) == x
  {
    assert (1.0 / a) * a == 1.0;
    assert (1.0 / a) * (x * a) == x * ((1.0 / a) * a);
  }

  lemma ExpandU(d: Vec3, e1: Vec3, e2: Vec3, u: real, v: real, t: real)
    ensures Dot(Sub(Add(Scale(e1, u), Scale(e2, v)), Scale(d, t)), Cross(d, e2)) == u * Dot(e1, Cross(d, e2))
  {
    DotCombination(e1, e2, d, u, v, t, Cross(d, e2));
    TripleRepeat(d, e2);
  }

  lemma ExpandV(d: Vec3, e1: Vec3, e2: Vec3, u: real, v: real, t: real)
    ensures Dot(d, Cross(Sub(Add(Scale(e1, u), Scale(e2, v)), Scale(d, t)), e1)) == v * Dot(e1, Cross(d, e2))
  {
    var w := Sub(Add(Scale(e1, u), Scale(e2, v)), Scale(d, t));
    TripleCyclic(d, w, e1);
    DotCombination(e1, e2, d, u, v, t, Cross(e1, d));
    TripleRepeat(e1, d);
    TripleCyclic(e2, e1, d);
  }

  lemma ExpandT(d: Vec3, e1: Vec3, e2: Vec3, u: real, v: real, t: real)
    ensures Dot(e2, Cross(Sub(Add(Scale(e1, u), Scale(e2, v)), Scale(d, t)), e1)) == t * Dot(e1, Cross(d, e2))
  {
    var w := Sub(Add(Scale(e1, u), Scale(e2, v)), Scale(d, t));
    TripleCyclic(e2, w, e1);
    DotCombination(e1, e2, d, u, v, t, Cross(e1, e2));
    TripleRepeat(e1, e2);
    TripleCyclic(d, e1, e2);
    TripleSwap(e1, e2, d);
  }

  /** The hit distance of a ray against a surface record. */
  function SurfaceScore(origin: Vec3, dir: Vec3): SurfaceRec -> Option<real> {
    (rec: SurfaceRec) =>
      var hit := RayTriangleIntersect(origin, dir, rec.v1, rec.v2, rec.v3);
      if hit.0 then Some(hit.1) else None
  }

  /** `findClosestSurface`: the first triangle record with the nearest hit
      along the ray; the margin argument is not used, so any hit counts. */
  method FindClosestSurface(surfaces: seq<seq<SurfaceRec>>, origin: Vec3, dir: Vec3, margin: real)
    returns (pick: Pick)
    ensures var score := SurfaceScore(origin, Scale(dir, RayLength));
            && (pick == Miss <==> NoneBeats(surfaces, score, FloatMax))
            && (pick != Miss ==>
                  exists p :: Chosen(surfaces, score, pick.shape, p) && pick.element == surfaces[pick.shape][p].id)
  {
    var score := SurfaceScore(origin, Scale(dir, RayLength));
    var best, s, p := ScanClosest(surfaces, score);
    if best == FloatMax {
      return Miss;
    }
    assert Chosen(surfaces, score, s, p);
    return Pick(s, surfaces[s][p].id);
  }
}
