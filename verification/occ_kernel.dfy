/** The OpenCASCADE services the kernel module uses, and the three queries
    of `occmanager.cpp` that lay kernel data out for the front end
    (`store_vertices`/`store_edges`, `get_edges`, `get_faces`).

    Geometry stays opaque: a shape is a value of type `S`, an edge a value of
    type `E`, and everything OpenCASCADE computes about them is a field of
    `Kernel`, a record of functions. */
module OccKernel {
  import opened Outcomes
  import opened Geometry
  import opened DivFacts

  /** Samples per edge in `get_edges`; the front end relies on it when it
      assigns curve IDs. */
  const Divisions: nat := 32

  /** A curve restricted to an edge's parameter range `[first, last]`. */
  datatype TrimmedCurve = TrimmedCurve(value: real -> Vec3, first: real, last: real)

  /** One triangle of a face triangulation, as its three node positions after
      the face location is applied. */
  datatype Triangle = Triangle(n1: Vec3, n2: Vec3, n3: Vec3)

  /** A face of a shape: its orientation and, once meshed, its triangulation. */
  datatype FaceMesh = FaceMesh(reversed: bool, triangulation: Option<seq<Triangle>>)

  datatype Kernel<!S, !E> = Kernel(
    /** An empty compound, the scratch shape `visualize` creates. */
    emptyCompound: S,
    /** The distinct vertices of a shape, in the kernel's map order. */
    vertexMap: S -> seq<Vec3>,
    /** The distinct edges of a shape, in the kernel's map order. */
    edgeMap: S -> seq<E>,
    /** Two points closer than the 1e-6 tolerance. */
    nearPoints: (Vec3, Vec3) -> bool,
    /** Two edges with matching ends and matching sampled geometry. */
    sameEdge: (E, E) -> bool,
    /** The curve under an edge; `None` for an edge without one. */
    curve: E -> Option<TrimmedCurve>,
    /** The edge runs against its curve's parametrisation. */
    reversed: E -> bool,
    /** The faces of a shape, in the kernel's map order. */
    faceMap: S -> seq<FaceMesh>,
    /** A compound of the shape and a new vertex. */
    withVertex: (S, Vec3) -> S,
    /** A compound of the shape and a straight edge between two points;
        `None` when OpenCASCADE cannot build the edge (coincident points)
        and the conversion to `TopoDS_Edge` throws `StdFail_NotDone`. */
    withSegment: (S, Vec3, Vec3) -> Option<S>,
    /** A compound of the shape and the arc through three points; `None`
        when OpenCASCADE cannot build the arc and throws. */
    withArc: (S, Vec3, Vec3, Vec3) -> Option<S>,
    /** A compound of the shape and a B-spline through the points; `None`
        when the fit fails or throws. */
    withSpline: (S, seq<Vec3>) -> Option<S>,
    /** The edges, added in order, connect into a wire; otherwise
        `BRepBuilderAPI_MakeWire::Wire()` throws `StdFail_NotDone`. */
    wireBuilds: seq<E> -> bool,
    /** A compound of the shape and a face bounded by the wire of the edges;
        `None` when the wire is not closed or the face cannot be built. */
    withFace: (S, seq<E>) -> Option<S>)

  /** The loop of `store_vertices` and `store_edges`: walk the kernel's
      list in order and keep an item unless it is near one already kept. */
  function DedupWalk<T>(xs: seq<T>, near: (T, T) -> bool): seq<T> {
    if |xs| == 0 then []
    else
      var kept := DedupWalk(xs[..|xs| - 1], near);
      var x := xs[|xs| - 1];
      if NearAny(x, kept, near) then kept else kept + [x]
  }

  /** `x` is near some item of `kept`. */
  predicate NearAny<T>(x: T, kept: seq<T>, near: (T, T) -> bool) {
    exists j :: 0 <= j < |kept| && near(x, kept[j])
  }

  /** What the walk keeps: items of the list, no two near each other, and
      every item of the list kept or near a kept one. */
  lemma {:induction false} DedupWalkFacts<T>(xs: seq<T>, near: (T, T) -> bool)
    ensures |DedupWalk(xs, near)| <= |xs|
    ensures forall j :: 0 <= j < |DedupWalk(xs, near)| ==> DedupWalk(xs, near)[j] in xs
    ensures forall i, j :: 0 <= i < j < |DedupWalk(xs, near)| ==> !near(DedupWalk(xs, near)[j], DedupWalk(xs, near)[i])
    ensures forall i :: 0 <= i < |xs| ==>
              xs[i] in DedupWalk(xs, near) || exists j :: 0 <= j < |DedupWalk(xs, near)| && near(xs[i], DedupWalk(xs, near)[j])
  {
    if |xs| > 0 {
      var init := xs[..|xs| - 1];
      DedupWalkFacts(init, near);
      var kept := DedupWalk(init, near);
      var x := xs[|xs| - 1];
      assert forall i :: 0 <= i < |xs| - 1 ==> xs[i] == init[i];
      if !NearAny(x, kept, near) {
        var r := kept + [x];
        assert forall j :: 0 <= j < |kept| ==> r[j] == kept[j];
        assert r[|kept|] == x;
      }
    }
  }

  /** The duplicate filter of `store_vertices` and `store_edges`. */
  function Dedup<T>(xs: seq<T>, near: (T, T) -> bool): (r: seq<T>)
    ensures |r| <= |xs|
    ensures forall j :: 0 <= j < |r| ==> r[j] in xs
    ensures forall i, j :: 0 <= i < j < |r| ==> !near(r[j], r[i])
    ensures forall i :: 0 <= i < |xs| ==> xs[i] in r || exists j :: 0 <= j < |r| && near(xs[i], r[j])
  {
    DedupWalkFacts(xs, near);
    DedupWalk(xs, near)
  }

  /** Position `i` of `xs` is near an item kept at an earlier position. */
  ghost predicate NearKept<T>(xs: seq<T>, near: (T, T) -> bool, pos: seq<nat>, i: nat)
    requires i < |xs| && forall j :: 0 <= j < |pos| ==> pos[j] < |xs|
  {
    exists j :: 0 <= j < |pos| && pos[j] < i && near(xs[i], xs[pos[j]])
  }

  /** The positions, among the first `n` of `xs`, of the items a walk in
      order keeps: increasing, each one below `n`. */
  ghost function KeptPositions<T>(xs: seq<T>, near: (T, T) -> bool, n: nat): (r: seq<nat>)
    requires n <= |xs|
    ensures forall j :: 0 <= j < |r| ==> r[j] < n
    ensures forall j, j' :: 0 <= j < j' < |r| ==> r[j] < r[j']
  {
    if n == 0 then []
    else
      var kept := KeptPositions(xs, near, n - 1);
      if NearKept(xs, near, kept, n - 1) then kept else kept + [n - 1]
  }

  /** Positions kept at or after `i` do not change whether `i` is near an
      earlier kept item. */
  lemma NearKeptExtend<T>(xs: seq<T>, near: (T, T) -> bool, kept: seq<nat>, extra: seq<nat>, i: nat)
    requires i < |xs|
    requires forall j :: 0 <= j < |kept| ==> kept[j] < |xs|
    requires forall j :: 0 <= j < |extra| ==> i <= extra[j] < |xs|
    ensures NearKept(xs, near, kept + extra, i) <==> NearKept(xs, near, kept, i)
  {
    var pos := kept + extra;
    if NearKept(xs, near, pos, i) {
      var j :| 0 <= j < |pos| && pos[j] < i && near(xs[i], xs[pos[j]]);
      assert j < |kept| && pos[j] == kept[j];
    }
    if NearKept(xs, near, kept, i) {
      var j :| 0 <= j < |kept| && kept[j] < i && near(xs[i], xs[kept[j]]);
      assert pos[j] == kept[j];
    }
  }

  /** The drop rule of `store_vertices` and `store_edges`: a position is kept
      exactly when its item is near no item kept before it. */
  lemma {:induction false} KeptPositionsRule<T>(xs: seq<T>, near: (T, T) -> bool, n: nat)
    requires n <= |xs|
    ensures forall i :: 0 <= i < n ==> (i in KeptPositions(xs, near, n) <==> !NearKept(xs, near, KeptPositions(xs, near, n), i))
  {
    if n > 0 {
      KeptPositionsRule(xs, near, n - 1);
      var kept := KeptPositions(xs, near, n - 1);
      var pos := KeptPositions(xs, near, n);
      var extra := if NearKept(xs, near, kept, n - 1) then [] else [n - 1];
      assert pos == kept + extra;
      forall i | 0 <= i < n
        ensures i in pos <==> !NearKept(xs, near, pos, i)
      {
        NearKeptExtend(xs, near, kept, extra, i);
        if i < n - 1 {
          assert i in kept <==> !NearKept(xs, near, kept, i);
          assert i in pos <==> i in kept;
        } else {
          assert n - 1 !in kept;
          assert n - 1 in pos <==> extra != [];
        }
      }
    }
  }

  /** One step of the walk over a prefix: the next item is dropped when it
      is near an item already kept, and appended otherwise. */
  lemma DedupWalkStep<T>(xs: seq<T>, near: (T, T) -> bool, n: nat)
    requires 0 < n <= |xs|
    ensures NearAny(xs[n - 1], DedupWalk(xs[..n - 1], near), near) ==>
              DedupWalk(xs[..n], near) == DedupWalk(xs[..n - 1], near)
    ensures !NearAny(xs[n - 1], DedupWalk(xs[..n - 1], near), near) ==>
              DedupWalk(xs[..n], near) == DedupWalk(xs[..n - 1], near) + [xs[n - 1]]
  {
    assert xs[..n][..n - 1] == xs[..n - 1];
    assert xs[..n][n - 1] == xs[n - 1];
  }

  /** The walk over the first `n` items keeps the items at the kept
      positions, in the kernel's order. */
  ghost predicate WalkMatchesPositions<T>(xs: seq<T>, near: (T, T) -> bool, n: nat)
    requires n <= |xs|
  {
    var d := DedupWalk(xs[..n], near);
    var pos := KeptPositions(xs, near, n);
    |d| == |pos| && forall j :: 0 <= j < |d| ==> d[j] == xs[pos[j]]
  }

  lemma {:induction false} DedupKeepsOrder<T>(xs: seq<T>, near: (T, T) -> bool, n: nat)
    requires n <= |xs|
    ensures |DedupWalk(xs[..n], near)| == |KeptPositions(xs, near, n)|
    ensures forall j :: 0 <= j < |DedupWalk(xs[..n], near)| ==> DedupWalk(xs[..n], near)[j] == xs[KeptPositions(xs, near, n)[j]]
  {
    if n > 0 {
      DedupKeepsOrder(xs, near, n - 1);
      if NearKept(xs, near, KeptPositions(xs, near, n - 1), n - 1) {
        DedupDropStep(xs, near, n);
      } else {
        DedupKeepStep(xs, near, n);
      }
    }
  }

  /** The walk drops an item near an item kept before it. */
  lemma DedupDropStep<T>(xs: seq<T>, near: (T, T) -> bool, n: nat)
    requires 0 < n <= |xs| && WalkMatchesPositions(xs, near, n - 1)
    requires NearKept(xs, near, KeptPositions(xs, near, n - 1), n - 1)
    ensures WalkMatchesPositions(xs, near, n)
  {
    DedupWalkStep(xs, near, n);
    var kept := KeptPositions(xs, near, n - 1);
    var d := DedupWalk(xs[..n - 1], near);
    var j :| 0 <= j < |kept| && kept[j] < n - 1 && near(xs[n - 1], xs[kept[j]]);
    assert near(xs[n - 1], d[j]);
    assert NearAny(xs[n - 1], d, near);
    assert KeptPositions(xs, near, n) == kept;
  }

  /** The walk appends an item near no item kept before it. */
  lemma DedupKeepStep<T>(xs: seq<T>, near: (T, T) -> bool, n: nat)
    requires 0 < n <= |xs| && WalkMatchesPositions(xs, near, n - 1)
    requires !NearKept(xs, near, KeptPositions(xs, near, n - 1), n - 1)
    ensures WalkMatchesPositions(xs, near, n)
  {
    DedupWalkStep(xs, near, n);
    var kept := KeptPositions(xs, near, n - 1);
    var d := DedupWalk(xs[..n - 1], near);
    assert !NearAny(xs[n - 1], d, near) by {
      forall j | 0 <= j < |d|
        ensures !near(xs[n - 1], d[j])
      {
        assert d[j] == xs[kept[j]];
      }
    }
    var pos := kept + [n - 1];
    assert KeptPositions(xs, near, n) == pos;
    var w := d + [xs[n - 1]];
    assert w == DedupWalk(xs[..n], near);
    forall j | 0 <= j < |w|
      ensures w[j] == xs[pos[j]]
    {
      if j < |d| {
        assert w[j] == d[j] && pos[j] == kept[j];
      }
    }
  }

  /** The whole list: `Dedup` is the in-order walk that keeps an item exactly
      when it is near no item kept before it. */
  lemma DedupIsInOrderWalk<T>(xs: seq<T>, near: (T, T) -> bool)
    ensures |Dedup(xs, near)| == |KeptPositions(xs, near, |xs|)|
    ensures forall j :: 0 <= j < |Dedup(xs, near)| ==> Dedup(xs, near)[j] == xs[KeptPositions(xs, near, |xs|)[j]]
    ensures forall j, j' :: 0 <= j < j' < |KeptPositions(xs, near, |xs|)| ==>
              KeptPositions(xs, near, |xs|)[j] < KeptPositions(xs, near, |xs|)[j']
    ensures forall i :: 0 <= i < |xs| ==>
              (i in KeptPositions(xs, near, |xs|) <==> !NearKept(xs, near, KeptPositions(xs, near, |xs|), i))
  {
    DedupKeepsOrder(xs, near, |xs|);
    assert xs[..|xs|] == xs;
    KeptPositionsRule(xs, near, |xs|);
  }

  /** The shape after one `withVertex` per position, in order. */
  function WithVertices<S, E>(k: Kernel<S, E>, s: S, ps: seq<Vec3>): S
    decreases |ps|
  {
    if ps == [] then s else WithVertices(k, k.withVertex(s, ps[0]), ps[1..])
  }

  /** What `store_vertices` records for a shape. */
  function VertexList<S, E>(k: Kernel<S, E>, s: S): seq<Vec3> {
    Dedup(k.vertexMap(s), k.nearPoints)
  }

  /** What `store_edges` records for a shape. */
  function EdgeList<S, E>(k: Kernel<S, E>, s: S): seq<E> {
    Dedup(k.edgeMap(s), k.sameEdge)
  }

  /** The curve parameter of sample `s` out of `Divisions`. */
  function SampleParameter(first: real, last: real, s: int): real {
    first + (last - first) * (s as real) / (Divisions as real)
  }

  /** The inner loop of `get_edges`: from sample `s` on, emit the pair
      (previous sample, sample `s`) and carry the sample forward. */
  function SamplePairs(c: TrimmedCurve, first: real, last: real, s: nat, prev: Vec3): (r: seq<Vec3>)
    requires 1 <= s <= Divisions + 1
    decreases Divisions + 1 - s
    ensures |r| == 2 * (Divisions + 1 - s)
    ensures |r| > 0 ==> r[0] == prev
    ensures forall j :: 0 < j < |r| ==> r[j] == c.value(SampleParameter(first, last, s - 1 + (j + 1) / 2))
  {
    if s > Divisions then []
    else
      var cur := c.value(SampleParameter(first, last, s));
      var rest := SamplePairs(c, first, last, s + 1, cur);
      assert forall j :: 2 < j < 2 + |rest| ==> ([prev, cur] + rest)[j] == rest[j - 2];
      [prev, cur] + rest
  }

  /** The positions `get_edges` emits for one edge: nothing without a curve,
      otherwise `Divisions` consecutive segments along the curve, sampled from
      `last` to `first` on a reversed edge. */
  function EdgeSamples<S, E>(k: Kernel<S, E>, e: E): (r: seq<Vec3>)
    ensures k.curve(e).None? ==> r == []
    ensures k.curve(e).Some? ==> |r| == 2 * Divisions == 64
    ensures k.curve(e).Some? ==>
              var c := k.curve(e).value;
              var (a, b) := if k.reversed(e) then (c.last, c.first) else (c.first, c.last);
              forall j :: 0 <= j < |r| ==> r[j] == c.value(SampleParameter(a, b, (j + 1) / 2))
  {
    match k.curve(e)
    case None => []
    case Some(c) =>
      var (a, b) := if k.reversed(e) then (c.last, c.first) else (c.first, c.last);
      assert SampleParameter(a, b, 0) == a;
      SamplePairs(c, a, b, 1, c.value(a))
  }

  /** The number of edges `get_edges` samples. */
  function CurvedCount<S, E>(k: Kernel<S, E>, es: seq<E>): nat {
    if |es| == 0 then 0 else (if k.curve(es[0]).Some? then 1 else 0) + CurvedCount(k, es[1..])
  }

  /** `get_edges` over a shape's stored edge list. */
  function EdgePoints<S, E>(k: Kernel<S, E>, es: seq<E>): (r: seq<Vec3>)
    ensures |r| == 64 * CurvedCount(k, es)
  {
    if |es| == 0 then [] else EdgeSamples(k, es[0]) + EdgePoints(k, es[1..])
  }

  /** `get_edges` samples edge by edge: the points of a concatenation of
      edge lists are those of each list, in order. With the one-edge case
      this fixes the result: each edge's 64 samples, in edge order. */
  lemma {:induction false} EdgePointsAppend<S, E>(k: Kernel<S, E>, es: seq<E>, more: seq<E>)
    ensures EdgePoints(k, es + more) == EdgePoints(k, es) + EdgePoints(k, more)
    ensures |es| == 1 ==> EdgePoints(k, es) == EdgeSamples(k, es[0])
  {
    if |es| == 0 {
      assert es + more == more;
    } else {
      assert (es + more)[1..] == es[1..] + more;
      EdgePointsAppend(k, es[1..], more);
    }
  }

  /** Within each block of `Divisions` pairs, a pair starts where the previous
      one ended. */
  ghost predicate Chained(r: seq<Vec3>) {
    forall j :: 0 < j < |r| && j % 2 == 0 && j % 64 != 0 ==> r[j] == r[j - 1]
  }

  lemma {:induction false} EdgePointsChain<S, E>(k: Kernel<S, E>, es: seq<E>)
    ensures Chained(EdgePoints(k, es))
  {
    if |es| > 0 {
      EdgePointsChain(k, es[1..]);
      SamplesChained(k, es[0]);
      ChainedPrepend(EdgeSamples(k, es[0]), EdgePoints(k, es[1..]));
    }
  }

  lemma SamplesChained<S, E>(k: Kernel<S, E>, e: E)
    ensures Chained(EdgeSamples(k, e))
  {
    forall j | 0 < j < |EdgeSamples(k, e)| && j % 2 == 0 && j % 64 != 0 {
      HeadChain(k, e, j);
    }
  }

  /** One edge's block in front of chained blocks keeps them chained. */
  lemma ChainedPrepend(head: seq<Vec3>, rest: seq<Vec3>)
    requires |head| == 0 || |head| == 64
    requires Chained(head) && Chained(rest)
    ensures Chained(head + rest)
  {
    forall j | 0 < j < |head + rest| && j % 2 == 0 && j % 64 != 0
      ensures (head + rest)[j] == (head + rest)[j - 1]
    {
      if j >= |head| {
        RestIndex(j, |head|);
      }
    }
  }

  lemma HeadChain<S, E>(k: Kernel<S, E>, e: E, j: int)
    requires 0 < j < |EdgeSamples(k, e)| && j % 2 == 0
    ensures EdgeSamples(k, e)[j] == EdgeSamples(k, e)[j - 1]
  {
    Div2(j, j / 2, 0);
    Div2(j + 1, j / 2, 1);
  }

  lemma RestIndex(j: int, h: int)
    requires h == 0 || h == 64
    requires h <= j && j > 0 && j % 2 == 0 && j % 64 != 0
    ensures j - h > 0 && (j - h) % 2 == 0 && (j - h) % 64 != 0
  {
    if h == 64 {
      Div64(j - 64, j / 64 - 1, j % 64);
      Div2(j - 64, j / 2 - 32, j % 2);
    }
  }

  /** The corners `get_faces` emits for a face's triangles, swapping the
      second and third node of a reversed face. */
  function Corners(reversed: bool, ts: seq<Triangle>): (r: seq<Vec3>)
    ensures |r| == 3 * |ts|
    ensures forall t :: 0 <= t < |ts| ==>
              r[3 * t] == ts[t].n1
              && r[3 * t + 1] == (if reversed then ts[t].n3 else ts[t].n2)
              && r[3 * t + 2] == (if reversed then ts[t].n2 else ts[t].n3)
  {
    if |ts| == 0 then []
    else
      var t := ts[0];
      var rest := Corners(reversed, ts[1..]);
      var head := if reversed then [t.n1, t.n3, t.n2] else [t.n1, t.n2, t.n3];
      assert forall q :: 0 < q < |ts| ==> ts[q] == ts[1..][q - 1];
      assert forall q :: 3 <= q < 3 + |rest| ==> (head + rest)[q] == rest[q - 3];
      head + rest
  }

  /** The number of faces that carry a triangulation. */
  function MeshedCount(fs: seq<FaceMesh>): nat {
    if |fs| == 0 then 0 else (if fs[0].triangulation.Some? then 1 else 0) + MeshedCount(fs[1..])
  }

  /** The number of triangles over all faces. */
  function TriangleCount(fs: seq<FaceMesh>): nat {
    if |fs| == 0 then 0
    else (match fs[0].triangulation case None => 0 case Some(ts) => |ts|) + TriangleCount(fs[1..])
  }

  /** `get_faces` from face ID `id` on: triangle corners, and one ID per
      triangle. A face without a triangulation is skipped without using up
      an ID. */
  function FaceTriangles(fs: seq<FaceMesh>, id: int): (r: (seq<Vec3>, seq<int>))
    ensures |r.1| == TriangleCount(fs)
    ensures |r.0| == 3 * |r.1|
    ensures forall t :: 0 <= t < |r.1| ==> id <= r.1[t] < id + MeshedCount(fs)
    ensures forall t, u :: 0 <= t < u < |r.1| ==> r.1[t] <= r.1[u]
  {
    if |fs| == 0 then ([], [])
    else
      var rest := FaceTriangles(fs[1..], if fs[0].triangulation.Some? then id + 1 else id);
      match fs[0].triangulation
      case None => rest
      case Some(ts) =>
        var ids := seq(|ts|, _ => id);
        assert forall t :: |ids| <= t < |ids| + |rest.1| ==> (ids + rest.1)[t] == rest.1[t - |ids|];
        (Corners(fs[0].reversed, ts) + rest.0, ids + rest.1)
  }
}
