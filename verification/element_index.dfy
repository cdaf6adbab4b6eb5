/** The front end's element index (`VisualizationManager.cs`, `DrawEdges`,
    `DrawPoints`, `DrawSurfaces`): for every shape, the list of pickable
    segments, points and triangles with the element ID each carries.

    The outer lists grow lazily: a rebuild clears the list of the shape it
    draws only if that list already exists, and appends a new empty list,
    one per record added, only while there are fewer lists than shapes. */
module ElementIndex {
  import opened Outcomes
  import opened Geometry
  import opened DivFacts

  /** `PointStruct`. */
  datatype PointRec = PointRec(position: Vec3, id: int)

  /** `CurveStruct`: one drawn segment of a curve, with the curve's ID. */
  datatype CurveRec = CurveRec(start: Vec3, end: Vec3, id: int)

  /** `SurfaceStruct`: one triangle of a face, with the face's ID. */
  datatype SurfaceRec = SurfaceRec(v1: Vec3, v2: Vec3, v3: Vec3, id: int)

  /** The `curves`, `points` and `surfaces` lists, outer index = shape. */
  datatype Index = Index(curves: seq<seq<CurveRec>>, points: seq<seq<PointRec>>, surfaces: seq<seq<SurfaceRec>>)

  /** The loop of `DrawPoints` from vertex `i` on: a vertex's ID is its
      position in the shape's vertex list. */
  function PointsFrom(vs: seq<Vec3>, i: nat): (r: seq<PointRec>)
    requires i <= |vs|
    decreases |vs| - i
    ensures |r| == |vs| - i
    ensures forall j :: 0 <= j < |r| ==> r[j].position == vs[i + j] && r[j].id == i + j
  {
    if i == |vs| then [] else [PointRec(vs[i], i)] + PointsFrom(vs, i + 1)
  }

  function PointRecords(vs: seq<Vec3>): (r: seq<PointRec>)
    ensures |r| == |vs|
    ensures forall j :: 0 <= j < |r| ==> r[j].position == vs[j] && r[j].id == j
  {
    PointsFrom(vs, 0)
  }

  /** The loop of `DrawEdges` from pair `p` on (position `2p`), `id` being
      the ID of the pair before `p`: the ID steps up at every position that
      is a non-zero multiple of 64, that is at the start of each block of 32
      segments, one sampled edge. */
  function PairsFrom(ep: seq<Vec3>, n: nat, p: nat, id: int): (r: seq<CurveRec>)
    requires |ep| == 2 * n && p <= n
    requires id == (if p == 0 then 0 else (p - 1) / 32)
    decreases n - p
    ensures |r| == n - p
    ensures forall j :: 0 <= j < |r| ==>
              r[j].start == ep[2 * (p + j)] && r[j].end == ep[2 * (p + j) + 1] && r[j].id == (p + j) / 32
  {
    if p == n then []
    else
      var i := 2 * p;
      var next := if i % 64 == 0 && i > 0 then id + 1 else id;
      StepId(p, id);
      [CurveRec(ep[i], ep[i + 1], next)] + PairsFrom(ep, n, p + 1, next)
  }

  /** The ID of pair `p` is `p / 32`, given that of pair `p - 1`. */
  lemma StepId(p: nat, id: int)
    requires id == (if p == 0 then 0 else (p - 1) / 32)
    ensures (if (2 * p) % 64 == 0 && p > 0 then id + 1 else id) == p / 32
  {
    if p == 0 {
      Div64(0, 0, 0);
      Div32(0, 0, 0);
    } else {
      var q, s := (p - 1) / 32, (p - 1) % 32;
      if s == 31 {
        Div32(p, q + 1, 0);
        Div64(2 * p, q + 1, 0);
      } else {
        Div32(p, q, s + 1);
        Div64(2 * p, q, 2 * (s + 1));
      }
    }
  }

  /** The segment records of one shape: pair `k` joins positions `2k` and
      `2k + 1` and carries ID `k / 32`. */
  function CurveRecords(ep: seq<Vec3>): (r: seq<CurveRec>)
    requires |ep| % 2 == 0
    ensures 2 * |r| == |ep|
    ensures forall k :: 0 <= k < |r| ==> r[k].start == ep[2 * k] && r[k].end == ep[2 * k + 1] && r[k].id == k / 32
  {
    Div2(|ep|, |ep| / 2, 0);
    PairsFrom(ep, |ep| / 2, 0, 0)
  }

  /** The loop of `DrawSurfaces` from triangle `t` on: corners `3t` to
      `3t + 2`, with the face ID reported for triangle `t`. */
  function SurfacesFrom(tris: seq<Vec3>, ids: seq<int>, t: nat): (r: seq<SurfaceRec>)
    requires |tris| == 3 * |ids| && t <= |ids|
    decreases |ids| - t
    ensures |r| == |ids| - t
    ensures forall j :: 0 <= j < |r| ==>
              r[j].v1 == tris[3 * (t + j)] && r[j].v2 == tris[3 * (t + j) + 1] && r[j].v3 == tris[3 * (t + j) + 2]
              && r[j].id == ids[t + j]
  {
    if t == |ids| then []
    else [SurfaceRec(tris[3 * t], tris[3 * t + 1], tris[3 * t + 2], ids[t])] + SurfacesFrom(tris, ids, t + 1)
  }

  function SurfaceRecords(tris: seq<Vec3>, ids: seq<int>): (r: seq<SurfaceRec>)
    requires |tris| == 3 * |ids|
    ensures |r| == |ids|
    ensures forall k :: 0 <= k < |r| ==>
              r[k].v1 == tris[3 * k] && r[k].v2 == tris[3 * k + 1] && r[k].v3 == tris[3 * k + 2] && r[k].id == ids[k]
  {
    SurfacesFrom(tris, ids, 0)
  }

  /** Adding the records of shape `i` one by one: before each, append an
      empty outer list if there are fewer than `count`; then add the record to
      list `i`, which throws if that list still does not exist. */
  function Fill<R>(ls: seq<seq<R>>, i: nat, count: int, recs: seq<R>): (r: Run<seq<seq<R>>>)
    decreases |recs|
    ensures r.Defined()
    ensures r.Done? <==> recs == [] || i < |ls| || (i == |ls| && |ls| < count)
    ensures |ls| <= |r.state| <= |ls| + |recs|
    ensures |r.state| > |ls| ==> |r.state| <= count
    ensures forall j :: 0 <= j < |ls| && j != i ==> r.state[j] == ls[j]
    ensures forall j :: |ls| <= j < |r.state| && j != i ==> r.state[j] == []
    ensures r.Done? && recs == [] ==> r.state == ls
    ensures r.Done? && recs != [] ==> i < |r.state| && r.state[i] == (if i < |ls| then ls[i] else []) + recs
  {
    if recs == [] then Done(ls)
    else
      var grown := if |ls| < count then ls + [[]] else ls;
      if i < |grown| then
        var r := Fill(grown[i := grown[i] + [recs[0]]], i, count, recs[1..]);
        assert [recs[0]] + recs[1..] == recs;
        r
      else
        Threw(grown)
  }

  /** One `Draw*` call for shape `i`: clear list `i` if it exists, then fill
      it. */
  function Refill<R>(ls: seq<seq<R>>, i: nat, count: int, recs: seq<R>): (r: Run<seq<seq<R>>>)
    ensures r.Defined()
    ensures r.Done? <==> recs == [] || i < |ls| || (i == |ls| && |ls| < count)
    ensures |ls| <= |r.state| <= |ls| + |recs|
    ensures |r.state| > |ls| ==> |r.state| <= count
    ensures forall j :: 0 <= j < |ls| && j != i ==> r.state[j] == ls[j]
    ensures forall j :: |ls| <= j < |r.state| && j != i ==> r.state[j] == []
    ensures r.Done? && i < |r.state| ==> r.state[i] == recs
    ensures r.Done? && i >= |r.state| ==> recs == [] && r.state == ls
  {
    Fill(if i < |ls| then ls[i := []] else ls, i, count, recs)
  }

  /** The rebuild of one kind of list over shapes `i` to `|table| - 1`,
      `table[s]` holding the records of shape `s`; it stops at the first
      throw. */
  function Rebuild<R>(ls: seq<seq<R>>, table: seq<seq<R>>, i: nat): (r: Run<seq<seq<R>>>)
    requires i <= |table|
    decreases |table| - i
    ensures r.Defined()
  {
    if i == |table| then Done(ls)
    else
      var step := Refill(ls, i, |table|, table[i]);
      if step.Done? then Rebuild(step.state, table, i + 1) else Threw(step.state)
  }

  /** Lists at shape indices the rebuild does not reach keep their contents,
      whether it completes or throws; the outer list only grows, and never
      past the shape count unless it already was longer. */
  lemma {:induction false} RebuildKeepsStale<R>(ls: seq<seq<R>>, table: seq<seq<R>>, i: nat)
    requires i <= |table|
    ensures var r := Rebuild(ls, table, i);
            && |ls| <= |r.state|
            && (|r.state| > |ls| ==> |r.state| <= |table|)
            && forall j :: |table| <= j < |ls| ==> r.state[j] == ls[j]
    decreases |table| - i
  {
    if i < |table| {
      var step := Refill(ls, i, |table|, table[i]);
      if step.Done? {
        RebuildKeepsStale(step.state, table, i + 1);
      }
    }
  }

  /** The rebuilt shapes so far: list `j` holds shape `j`'s records, and a
      shape without a list has no records. */
  ghost predicate Rebuilt<R>(ls: seq<seq<R>>, table: seq<seq<R>>, upTo: nat)
    requires upTo <= |table|
  {
    forall j :: 0 <= j < upTo ==> if j < |ls| then ls[j] == table[j] else table[j] == []
  }

  /** A completed rebuild leaves list `s` equal to the records of shape `s`
      for every shape that has a list, and every shape without a list has no
      records. */
  lemma {:induction false} RebuildCorrect<R>(ls: seq<seq<R>>, table: seq<seq<R>>, i: nat)
    requires i <= |table| && Rebuilt(ls, table, i)
    ensures Rebuild(ls, table, i).Done? ==> Rebuilt(Rebuild(ls, table, i).state, table, |table|)
    decreases |table| - i
  {
    if i < |table| {
      var step := Refill(ls, i, |table|, table[i]);
      if step.Done? {
        forall j | 0 <= j < i + 1
          ensures if j < |step.state| then step.state[j] == table[j] else table[j] == []
        {
          if j < i && j >= |ls| {
            assert table[i] == [] || i < |ls| || i == |ls|;
          }
        }
        RebuildCorrect(step.state, table, i + 1);
      }
    }
  }

  /** With a list for every shape already present, a rebuild cannot throw. */
  lemma {:induction false} RebuildCoveredCompletes<R>(ls: seq<seq<R>>, table: seq<seq<R>>, i: nat)
    requires i <= |table| <= |ls|
    ensures Rebuild(ls, table, i).Done?
    decreases |table| - i
  {
    if i < |table| {
      RebuildCoveredCompletes(Refill(ls, i, |table|, table[i]).state, table, i + 1);
    }
  }

  /** A shape without records does not create its list, so the next shape's
      records have nowhere to go. */
  lemma RebuildAfterEmptyShapeThrows<R>(x: R)
    ensures Rebuild([], [[], [x]], 0) == Threw([[]])
  {
    assert Refill<R>([], 0, 2, []) == Done([]);
    var e: seq<seq<R>> := [];
    assert e + [[]] == [[]];
    assert Fill(e, 1, 2, [x]) == Threw([[]]);
    assert Refill<R>([], 1, 2, [x]) == Threw([[]]);
  }
}
