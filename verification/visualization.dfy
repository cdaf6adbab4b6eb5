/** The front end's view of the kernel (`VisualizationManager.cs`): the
    element index rebuilt by `Draw`, the operations that change the kernel
    and redraw, and the live previews of a segment, a point, an arc and a
    spline.

    Meshes, materials and scene-tree nodes are not modelled; a preview
    object is modelled by what it shows (the two ends of the segment, the
    position of the point). Every operation returns a `Run`: a C# exception
    ends it with the scene as it was at the throw, and undefined behaviour
    inside the kernel module ends it in `Undefined`. */
module Visualization {
  import opened Outcomes
  import opened CInt
  import opened Geometry
  import opened OccKernel
  import opened ElementIndex
  import O = OccManager
  import H = History
  import DivFacts

  datatype Scene<S, E> = Scene(
    occ: O.Manager<S, E>,
    index: Index,
    /** The ends of the segment preview object, when it exists. */
    segmentPreview: Option<(Vec3, Vec3)>,
    /** The position of the point preview object, when it exists. */
    pointPreview: Option<Vec3>)

  /** The representation invariant every operation keeps: the kernel's
      per-shape lists, and those of every snapshot, are parallel, and so are
      the history stacks. */
  predicate WellFormed<S, E>(sc: Scene<S, E>) {
    O.Aligned(sc.occ) && O.SnapshotsAligned(sc.occ.history)
  }

  /** The number of shapes `Draw` walks: `GetShapeCount()`, none when it is
      negative. */
  function DrawCount<S, E>(m: O.Manager<S, E>): (r: nat)
    ensures r <= |m.shapes|
    ensures |m.shapes| <= Int32Max ==> r == |m.shapes|
  {
    var c := O.GetShapeCount(m);
    if c < 0 then 0 else c
  }

  /** What `DrawEdges(i)` records for shape `i`. */
  function CurveRecordsOf<S, E>(k: Kernel<S, E>, m: O.Manager<S, E>, i: nat): seq<CurveRec>
    requires O.Aligned(m) && i < |m.shapes|
  {
    var ep := O.GetEdges(k, m, i);
    DivFacts.Div2(|ep|, 32 * CurvedCount(k, m.edges[i]), 0);
    CurveRecords(ep)
  }

  /** What `DrawPoints(i)` records for shape `i`. */
  function PointRecordsOf<S, E>(k: Kernel<S, E>, m: O.Manager<S, E>, i: nat): seq<PointRec>
    requires O.Aligned(m) && i < |m.shapes|
  {
    PointRecords(O.GetVertices(k, m, i))
  }

  /** What `DrawSurfaces(i)` records for shape `i`. */
  function SurfaceRecordsOf<S, E>(k: Kernel<S, E>, m: O.Manager<S, E>, i: nat): seq<SurfaceRec>
    requires O.Aligned(m) && i < |m.shapes|
  {
    var f := O.GetFaces(k, m, i);
    SurfaceRecords(f.0, f.1)
  }

  function CurveTable<S, E>(k: Kernel<S, E>, m: O.Manager<S, E>, count: nat): (r: seq<seq<CurveRec>>)
    requires O.Aligned(m) && count <= |m.shapes|
    ensures |r| == count && forall i :: 0 <= i < count ==> r[i] == CurveRecordsOf(k, m, i)
  {
    seq(count, i requires 0 <= i < count => CurveRecordsOf(k, m, i))
  }

  function PointTable<S, E>(k: Kernel<S, E>, m: O.Manager<S, E>, count: nat): (r: seq<seq<PointRec>>)
    requires O.Aligned(m) && count <= |m.shapes|
    ensures |r| == count && forall i :: 0 <= i < count ==> r[i] == PointRecordsOf(k, m, i)
  {
    seq(count, i requires 0 <= i < count => PointRecordsOf(k, m, i))
  }

  function SurfaceTable<S, E>(k: Kernel<S, E>, m: O.Manager<S, E>, count: nat): (r: seq<seq<SurfaceRec>>)
    requires O.Aligned(m) && count <= |m.shapes|
    ensures |r| == count && forall i :: 0 <= i < count ==> r[i] == SurfaceRecordsOf(k, m, i)
  {
    seq(count, i requires 0 <= i < count => SurfaceRecordsOf(k, m, i))
  }

  /** The records `Draw` adds for shapes `0 .. count - 1`, one entry per
      shape in each list. */
  function Records<S, E>(k: Kernel<S, E>, m: O.Manager<S, E>, count: nat): (t: Index)
    requires O.Aligned(m) && count <= |m.shapes|
    ensures Tabled(t) && |t.curves| == count
  {
    Index(CurveTable(k, m, count), PointTable(k, m, count), SurfaceTable(k, m, count))
  }

  /** An index used as a table: the three lists have one entry per shape. */
  predicate Tabled(t: Index) {
    |t.points| == |t.curves| && |t.surfaces| == |t.curves|
  }

  /** The loop of `Draw` from shape `i` on, `t` holding the records of each
      shape: edges, points, then surfaces of each shape, stopping at the
      first throw. */
  function DrawFrom(t: Index, idx: Index, i: nat): (r: Run<Index>)
    requires Tabled(t) && i <= |t.curves|
    decreases |t.curves| - i
    ensures r.Defined()
  {
    var count := |t.curves|;
    if i == count then Done(idx)
    else
      var c := Refill(idx.curves, i, count, t.curves[i]);
      if !c.Done? then Threw(idx.(curves := c.state))
      else
        var p := Refill(idx.points, i, count, t.points[i]);
        if !p.Done? then Threw(idx.(curves := c.state, points := p.state))
        else
          var s := Refill(idx.surfaces, i, count, t.surfaces[i]);
          if !s.Done? then Threw(Index(c.state, p.state, s.state))
          else DrawFrom(t, Index(c.state, p.state, s.state), i + 1)
  }

  /** The three kinds of list evolve independently: the interleaved loop
      completes exactly when each kind's rebuild on its own completes, and
      then ends with their results. */
  lemma {:induction false} DrawSplits(t: Index, idx: Index, i: nat)
    requires Tabled(t) && i <= |t.curves|
    ensures var r := DrawFrom(t, idx, i);
            var c := Rebuild(idx.curves, t.curves, i);
            var p := Rebuild(idx.points, t.points, i);
            var s := Rebuild(idx.surfaces, t.surfaces, i);
            && (r.Done? <==> c.Done? && p.Done? && s.Done?)
            && (r.Done? ==> r.state == Index(c.state, p.state, s.state))
    decreases |t.curves| - i
  {
    if i < |t.curves| {
      var count := |t.curves|;
      var c := Refill(idx.curves, i, count, t.curves[i]);
      var p := Refill(idx.points, i, count, t.points[i]);
      var s := Refill(idx.surfaces, i, count, t.surfaces[i]);
      if c.Done? && p.Done? && s.Done? {
        DrawSplits(t, Index(c.state, p.state, s.state), i + 1);
      }
    }
  }

  /** `r` extends every list of `idx` and keeps the lists from shape
      `count` on. */
  ghost predicate KeepsStale(idx: Index, r: Index, count: nat) {
    && |idx.curves| <= |r.curves| && |idx.points| <= |r.points| && |idx.surfaces| <= |r.surfaces|
    && (forall j :: count <= j < |idx.curves| ==> r.curves[j] == idx.curves[j])
    && (forall j :: count <= j < |idx.points| ==> r.points[j] == idx.points[j])
    && (forall j :: count <= j < |idx.surfaces| ==> r.surfaces[j] == idx.surfaces[j])
  }

  lemma StaleTransitive(a: Index, b: Index, c: Index, count: nat)
    requires KeepsStale(a, b, count) && KeepsStale(b, c, count)
    ensures KeepsStale(a, c, count)
  {
  }

  /** Lists at shape indices the loop does not reach keep their contents,
      whether it completes or throws. */
  lemma {:induction false} DrawFromKeepsStale(t: Index, idx: Index, i: nat)
    requires Tabled(t) && i <= |t.curves|
    ensures KeepsStale(idx, DrawFrom(t, idx, i).state, |t.curves|)
    decreases |t.curves| - i
  {
    var count := |t.curves|;
    if i < count {
      var c := Refill(idx.curves, i, count, t.curves[i]);
      var p := Refill(idx.points, i, count, t.points[i]);
      var s := Refill(idx.surfaces, i, count, t.surfaces[i]);
      var next := Index(c.state, p.state, s.state);
      assert KeepsStale(idx, next, count);
      if c.Done? && p.Done? && s.Done? {
        DrawFromKeepsStale(t, next, i + 1);
        StaleTransitive(idx, next, DrawFrom(t, next, i + 1).state, count);
      } else {
        assert KeepsStale(idx, idx.(curves := c.state), count);
        assert KeepsStale(idx, idx.(curves := c.state, points := p.state), count);
      }
    }
  }

  /** The index shows the kernel: for every shape `Draw` walks, its list of
      each kind, when it exists, holds exactly the records of that shape,
      and a shape without a list has no records of that kind. */
  ghost predicate Shows<S, E>(k: Kernel<S, E>, sc: Scene<S, E>)
    requires O.Aligned(sc.occ)
  {
    var n := DrawCount(sc.occ);
    && Rebuilt(sc.index.curves, CurveTable(k, sc.occ, n), n)
    && Rebuilt(sc.index.points, PointTable(k, sc.occ, n), n)
    && Rebuilt(sc.index.surfaces, SurfaceTable(k, sc.occ, n), n)
  }

  /** Every shape `Draw` walks already has a list of each kind. */
  predicate Covered<S, E>(sc: Scene<S, E>) {
    var n := DrawCount(sc.occ);
    |sc.index.curves| >= n && |sc.index.points| >= n && |sc.index.surfaces| >= n
  }

  /** `Draw()`: rebuild the index for every shape. It changes nothing but
      the index; when it completes the index shows the kernel; it cannot
      throw once every shape has its lists; and the lists of shapes past the
      count (a deleted preview's) are left as they were. */
  function Draw<S, E>(k: Kernel<S, E>, sc: Scene<S, E>): (r: Run<Scene<S, E>>)
    requires O.Aligned(sc.occ)
    ensures r.Defined()
    ensures r.state.occ == sc.occ && r.state.segmentPreview == sc.segmentPreview && r.state.pointPreview == sc.pointPreview
    ensures r.Done? ==> Shows(k, r.state)
    ensures Covered(sc) ==> r.Done?
    ensures KeepsStale(sc.index, r.state.index, DrawCount(sc.occ))
  {
    DrawFacts(k, sc);
    DrawFromKeepsStale(Records(k, sc.occ, DrawCount(sc.occ)), sc.index, 0);
    var d := DrawFrom(Records(k, sc.occ, DrawCount(sc.occ)), sc.index, 0);
    if d.Done? then Done(sc.(index := d.state)) else Threw(sc.(index := d.state))
  }

  /** What the loop over all shapes achieves, from the per-kind rebuild
      lemmas. */
  lemma DrawFacts<S, E>(k: Kernel<S, E>, sc: Scene<S, E>)
    requires O.Aligned(sc.occ)
    ensures var n := DrawCount(sc.occ);
            var d := DrawFrom(Records(k, sc.occ, n), sc.index, 0);
            && (d.Done? ==> Shows(k, sc.(index := d.state)))
            && (Covered(sc) ==> d.Done?)
  {
    var n := DrawCount(sc.occ);
    var m := sc.occ;
    DrawSplits(Records(k, m, n), sc.index, 0);
    RebuildCorrect(sc.index.curves, CurveTable(k, m, n), 0);
    RebuildCorrect(sc.index.points, PointTable(k, m, n), 0);
    RebuildCorrect(sc.index.surfaces, SurfaceTable(k, m, n), 0);
    if Covered(sc) {
      RebuildCoveredCompletes(sc.index.curves, CurveTable(k, m, n), 0);
      RebuildCoveredCompletes(sc.index.points, PointTable(k, m, n), 0);
      RebuildCoveredCompletes(sc.index.surfaces, SurfaceTable(k, m, n), 0);
    }
  }

  /** `occManager.SaveState(name)` when `save` is set; `None` when the save
      is undefined. */
  function Commit<S, E>(m: O.Manager<S, E>, name: string, save: bool): (r: Option<O.Manager<S, E>>)
    requires H.Parallel(m.history)
    ensures !save ==> r == Some(m)
    ensures r.Some? ==> O.Live(r.value) == O.Live(m) && r.value.visualizing == m.visualizing && H.Parallel(r.value.history)
    ensures save && H.Fits(m.history) ==> (r.None? <==> |m.history.shapeStack| == 0 && m.history.position != -1)
    ensures save && H.Fits(m.history) && r.Some? ==> Committed(r.value, name)
  {
    SaveCommits(m, name);
    if save then O.SaveState(m, name) else Some(m)
  }

  /** A save that succeeds keeps the live state and records it as the
      newest entry, under `name`. */
  lemma SaveCommits<S, E>(m: O.Manager<S, E>, name: string)
    requires H.Parallel(m.history)
    ensures var r := O.SaveState(m, name);
            r.Some? ==> O.Live(r.value) == O.Live(m) && r.value.visualizing == m.visualizing && H.Parallel(r.value.history)
    ensures var r := O.SaveState(m, name);
            H.Fits(m.history) && r.Some? ==> Committed(r.value, name)
  {
  }

  /** The newest entry of the history is the live state, under `name`, and
      the cursor is on it. */
  ghost predicate Committed<S, E>(m: O.Manager<S, E>, name: string) {
    var h := m.history;
    && H.Parallel(h) && |h.shapeStack| > 0 && h.position == |h.shapeStack| - 1
    && H.Snapshot(h, h.position) == O.Live(m) && h.labels[h.position] == name
  }

  lemma CommitKeepsValid<S, E>(k: Kernel<S, E>, m: O.Manager<S, E>, name: string, save: bool)
    requires O.Aligned(m) && O.SnapshotsAligned(m.history)
    ensures O.Valid(k, m) && Commit(m, name, save).Some? ==> O.Valid(k, Commit(m, name, save).value)
    ensures Commit(m, name, save).Some? ==> O.Aligned(Commit(m, name, save).value) && O.SnapshotsAligned(Commit(m, name, save).value.history)
  {
    if save && O.SaveState(m, name).Some? {
      O.SaveKeepsAligned(m, name);
      if O.Valid(k, m) {
        O.SaveKeepsValid(k, m, name);
      }
    }
  }

  /** A kernel change followed by an optional save and a redraw: the common
      tail of `AddSegment`, `AddArc`, `AddPoint`, `AddSpline`. */
  function ChangeAndDraw<S, E>(k: Kernel<S, E>, sc: Scene<S, E>, changed: O.Manager<S, E>, name: string, save: bool): (r: Run<Scene<S, E>>)
    requires WellFormed(sc) && O.Aligned(changed) && O.SnapshotsAligned(changed.history)
    ensures r.Defined() ==> WellFormed(r.state) && O.Live(r.state.occ) == O.Live(changed)
    ensures r.Defined() ==> r.state.occ.visualizing == changed.visualizing
    ensures !save ==> r.Defined() && r.state.occ == changed
    ensures save && H.Fits(changed.history) ==>
              (r.Undefined? <==> |changed.history.shapeStack| == 0 && changed.history.position != -1)
    ensures save && H.Fits(changed.history) && r.Defined() ==> Committed(r.state.occ, name)
    ensures O.Valid(k, changed) && r.Defined() ==> O.Valid(k, r.state.occ)
    ensures r.Done? ==> Shows(k, r.state)
    ensures r.Defined() ==> r.state.segmentPreview == sc.segmentPreview && r.state.pointPreview == sc.pointPreview
  {
    CommitKeepsValid(k, changed, name, save);
    match Commit(changed, name, save)
    case None => Undefined
    case Some(m) => Draw(k, sc.(occ := m))
  }

  /** `AddSegment(shape, first, second)`: a straight edge between two stored
      vertices, a save labelled "Segment added", a redraw. An edge the
      kernel cannot build is undefined. */
  function AddSegment<S, E>(k: Kernel<S, E>, sc: Scene<S, E>, shape: Int32, first: Int32, second: Int32): (r: Run<Scene<S, E>>)
    requires WellFormed(sc)
    ensures O.AddEdge(k, sc.occ, shape, first, second).None? ==> r.Undefined?
    ensures H.Fits(sc.occ.history) ==>
              (r.Undefined? <==>
                 O.AddEdge(k, sc.occ, shape, first, second).None?
                 || (|sc.occ.history.shapeStack| == 0 && sc.occ.history.position != -1))
    ensures r.Defined() ==> WellFormed(r.state) && O.Live(r.state.occ) == O.Live(O.AddEdge(k, sc.occ, shape, first, second).value)
    ensures H.Fits(sc.occ.history) && r.Defined() ==> Committed(r.state.occ, "Segment added")
    ensures O.Valid(k, sc.occ) && r.Defined() ==> O.Valid(k, r.state.occ)
    ensures r.Done? ==> Shows(k, r.state)
  {
    match O.AddEdge(k, sc.occ, shape, first, second)
    case None => Undefined
    case Some(m) => ChangeAndDraw(k, sc, m, "Segment added", true)
  }

  /** `AddArc(shape, first, center, second, saveState)`: the arc through
      three stored vertices, a save labelled "Arc added" when asked for, a
      redraw. An arc the kernel cannot build is undefined. */
  function AddArc<S, E>(k: Kernel<S, E>, sc: Scene<S, E>, shape: Int32, first: Int32, center: Int32, second: Int32, save: bool): (r: Run<Scene<S, E>>)
    requires WellFormed(sc)
    ensures O.AddArcCircle(k, sc.occ, shape, first, center, second).None? ==> r.Undefined?
    ensures r.Defined() ==> WellFormed(r.state) && O.Live(r.state.occ) == O.Live(O.AddArcCircle(k, sc.occ, shape, first, center, second).value)
    ensures !save && r.Defined() ==> r.state.occ == O.AddArcCircle(k, sc.occ, shape, first, center, second).value
    ensures !save && r.Defined() ==> O.OnlySlotChanged(sc.occ, r.state.occ, shape)
    ensures r.Defined() ==> r.state.occ.visualizing == sc.occ.visualizing
    ensures save && H.Fits(sc.occ.history) && r.Defined() ==> Committed(r.state.occ, "Arc added")
    ensures O.Valid(k, sc.occ) && r.Defined() ==> O.Valid(k, r.state.occ)
    ensures r.Done? ==> Shows(k, r.state)
  {
    match O.AddArcCircle(k, sc.occ, shape, first, center, second)
    case None => Undefined
    case Some(m) => ChangeAndDraw(k, sc, m, "Arc added", save)
  }

  /** `AddPoint(shape, x, y, z, saveState)`: a new vertex, a save labelled
      "Point added" when asked for, a redraw. */
  function AddPoint<S, E>(k: Kernel<S, E>, sc: Scene<S, E>, shape: Int32, p: Vec3, save: bool): (r: Run<Scene<S, E>>)
    requires WellFormed(sc)
    ensures !save ==> r.Defined()
    ensures r.Defined() ==> WellFormed(r.state) && O.Live(r.state.occ) == O.Live(O.AddPoint(k, sc.occ, shape, p))
    ensures !save ==> r.state.occ == O.AddPoint(k, sc.occ, shape, p)
    ensures !save && r.Defined() ==> O.OnlySlotChanged(sc.occ, r.state.occ, shape)
    ensures save && H.Fits(sc.occ.history) && r.Defined() ==> Committed(r.state.occ, "Point added")
    ensures O.Valid(k, sc.occ) && r.Defined() ==> O.Valid(k, r.state.occ)
    ensures r.Done? ==> Shows(k, r.state)
    ensures r.Defined() ==> r.state.segmentPreview == sc.segmentPreview && r.state.pointPreview == sc.pointPreview
  {
    ChangeAndDraw(k, sc, O.AddPoint(k, sc.occ, shape, p), "Point added", save)
  }

  /** `AddSpline(shape, ids, saveState)`: a B-spline through stored
      vertices, a save labelled "Spline added" when asked for, a redraw. */
  function AddSpline<S, E>(k: Kernel<S, E>, sc: Scene<S, E>, shape: Int32, ids: seq<Int32>, save: bool): (r: Run<Scene<S, E>>)
    requires WellFormed(sc)
    ensures !save ==> r.Defined()
    ensures r.Defined() ==> WellFormed(r.state) && O.Live(r.state.occ) == O.Live(O.AddSpline(k, sc.occ, shape, ids))
    ensures !save ==> r.state.occ == O.AddSpline(k, sc.occ, shape, ids)
    ensures !save && r.Defined() ==> O.OnlySlotChanged(sc.occ, r.state.occ, shape)
    ensures save && H.Fits(sc.occ.history) && r.Defined() ==> Committed(r.state.occ, "Spline added")
    ensures O.Valid(k, sc.occ) && r.Defined() ==> O.Valid(k, r.state.occ)
    ensures r.Done? ==> Shows(k, r.state)
  {
    ChangeAndDraw(k, sc, O.AddSpline(k, sc.occ, shape, ids), "Spline added", save)
  }

  /** Reading `points[shape][id].position`: `None` where the C# list access
      throws. */
  function PointAt(idx: Index, shape: int, id: int): (r: Option<Vec3>)
    ensures r.Some? <==> 0 <= shape < |idx.points| && 0 <= id < |idx.points[shape]|
    ensures r.Some? ==> r.value == idx.points[shape][id].position
  {
    if 0 <= shape < |idx.points| && 0 <= id < |idx.points[shape]| then Some(idx.points[shape][id].position) else None
  }

  /** `AddFace(shape, edgeIds)`: the face, then a dummy vertex over the
      first point of shape 0 (a vertex add with its own redraw and no save),
      a save labelled "Face added", a redraw. Without a first point of
      shape 0 the read throws after the face is already in the kernel, and
      nothing is saved. */
  function AddFace<S, E>(k: Kernel<S, E>, sc: Scene<S, E>, shape: Int32, edgeIds: seq<Int32>): (r: Run<Scene<S, E>>)
    requires WellFormed(sc)
    ensures O.AddSurface(k, sc.occ, shape, edgeIds).None? ==> r.Undefined?
    ensures O.AddSurface(k, sc.occ, shape, edgeIds).Some? && PointAt(sc.index, 0, 0).None? ==>
              r == Threw(sc.(occ := O.AddSurface(k, sc.occ, shape, edgeIds).value))
    ensures r.Defined() ==> WellFormed(r.state)
    ensures r.Completed() ==>
              && PointAt(sc.index, 0, 0).Some?
              && var faced := O.AddSurface(k, sc.occ, shape, edgeIds).value;
                 O.Live(r.state.occ) == O.Live(O.AddPoint(k, faced, shape, PointAt(sc.index, 0, 0).value))
    ensures H.Fits(sc.occ.history) && r.Completed() ==> Committed(r.state.occ, "Face added")
    ensures O.Valid(k, sc.occ) && r.Defined() ==> O.Valid(k, r.state.occ)
    ensures r.Done? ==> Shows(k, r.state)
  {
    match O.AddSurface(k, sc.occ, shape, edgeIds)
    case None => Undefined
    case Some(m) =>
      var sc1 := sc.(occ := m);
      match PointAt(sc.index, 0, 0)
      case None => Threw(sc1)
      case Some(p) =>
        var dummy := AddPoint(k, sc1, shape, p, false);
        if dummy.Done? then ChangeAndDraw(k, dummy.state, dummy.state.occ, "Face added", true) else dummy
  }

  /** `VisualizeAddSegment(first, second, shape)`: read the two points
      (either read may throw); equal positions close the segment preview,
      otherwise the preview spans the two positions. Nothing else changes. */
  function VisualizeAddSegment<S, E>(sc: Scene<S, E>, first: int, second: int, shape: int): (r: Run<Scene<S, E>>)
    ensures r.Defined()
    ensures r.state.occ == sc.occ && r.state.index == sc.index && r.state.pointPreview == sc.pointPreview
    ensures r.Done? <==> PointAt(sc.index, shape, first).Some? && PointAt(sc.index, shape, second).Some?
    ensures r.Threw? ==> r.state == sc
    ensures r.Done? ==>
              var a := PointAt(sc.index, shape, first).value;
              var b := PointAt(sc.index, shape, second).value;
              r.state.segmentPreview == (if a == b then None else Some((a, b)))
  {
    var a, b := PointAt(sc.index, shape, first), PointAt(sc.index, shape, second);
    if a.None? || b.None? then Threw(sc)
    else if a.value == b.value then Done(EndSegmentAddingVisualization(sc))
    else Done(sc.(segmentPreview := Some((a.value, b.value))))
  }

  /** `EndSegmentAddingVisualization()`: drop the segment preview; nothing
      else changes. */
  function EndSegmentAddingVisualization<S, E>(sc: Scene<S, E>): (r: Scene<S, E>)
    ensures r.segmentPreview.None? && r == sc.(segmentPreview := r.segmentPreview)
  {
    sc.(segmentPreview := None)
  }

  /** `VisualizeAddPoint(x, y, z)`: the point preview moves to the position,
      creating it if needed; nothing else changes. */
  function VisualizeAddPoint<S, E>(sc: Scene<S, E>, p: Vec3): (r: Scene<S, E>)
    ensures r.pointPreview == Some(p) && r == sc.(pointPreview := r.pointPreview)
  {
    sc.(pointPreview := Some(p))
  }

  /** `EndPointAddingVisualization()`: drop the point preview; nothing else
      changes. */
  function EndPointAddingVisualization<S, E>(sc: Scene<S, E>): (r: Scene<S, E>)
    ensures r.pointPreview.None? && r == sc.(pointPreview := r.pointPreview)
  {
    sc.(pointPreview := None)
  }

  /** The manager with its preview, if any, closed. */
  function Closed<S, E>(m: O.Manager<S, E>): O.Manager<S, E>
    requires O.Aligned(m)
  {
    if m.visualizing then O.EndVisualization(m) else m
  }

  /** Opening a preview closes the old one first: the new scratch shape
      sits on the closed manager. */
  lemma VisualizeOverClosed<S, E>(k: Kernel<S, E>, m: O.Manager<S, E>)
    requires O.Aligned(m) && |m.shapes| <= Int32Max
    ensures O.PreviewOver(O.Visualize(k, m), Closed(m))
  {
  }

  /** The three preview vertices of `VisualizeAddArc`, each an `AddPoint`
      without a save: when all redraws complete, the kernel has taken one
      `add_point` per position, in order. */
  function AddPreviewPoints<S, E>(k: Kernel<S, E>, sc: Scene<S, E>, slot: Int32, ps: seq<Vec3>): (r: Run<Scene<S, E>>)
    requires WellFormed(sc)
    decreases |ps|
    ensures r.Defined() && WellFormed(r.state) && O.OnlySlotChanged(sc.occ, r.state.occ, slot)
    ensures r.Done? ==> r.state.occ == O.AddPoints(k, sc.occ, slot, ps)
    ensures O.Valid(k, sc.occ) ==> O.Valid(k, r.state.occ)
  {
    if ps == [] then Done(sc)
    else
      var step := AddPoint(k, sc, slot, ps[0], false);
      if step.Done? then AddPreviewPoints(k, step.state, slot, ps[1..]) else step
  }

  /** What the arc preview makes of the kernel `m` and the three positions
      read: a scratch shape holding the three positions as vertices 0, 1, 2
      and the arc through them; `None` where that arc is undefined. */
  ghost function ArcPreview<S, E>(k: Kernel<S, E>, m: O.Manager<S, E>, a: Vec3, b: Vec3, c: Vec3): Option<O.Manager<S, E>>
    requires O.Aligned(m)
  {
    var v := O.Visualize(k, m);
    var slot := ToInt32(O.GetShapeCount(v) - 1);
    O.AddArcCircle(k, O.AddPoints(k, v, slot, [a, b, c]), slot, 0, 1, 2)
  }

  /** `VisualizeAddArc(first, center, second)`: with three distinct IDs,
      open a preview, copy the three points of shape 0 into the scratch
      shape (reading all three first, any read may throw) and build the arc
      there, with a redraw after each step and no save. */
  function VisualizeAddArc<S, E>(k: Kernel<S, E>, sc: Scene<S, E>, first: int, center: int, second: int): (r: Run<Scene<S, E>>)
    requires WellFormed(sc)
    ensures first == center || first == second || center == second ==> r == Done(sc)
    ensures !(first == center || first == second || center == second)
            && (PointAt(sc.index, 0, first).None? || PointAt(sc.index, 0, center).None? || PointAt(sc.index, 0, second).None?) ==>
              r == Threw(sc.(occ := O.Visualize(k, sc.occ)))
    ensures !(first == center || first == second || center == second)
            && PointAt(sc.index, 0, first).Some? && PointAt(sc.index, 0, center).Some? && PointAt(sc.index, 0, second).Some?
            && r.Done? ==>
              ArcPreview(k, sc.occ, PointAt(sc.index, 0, first).value, PointAt(sc.index, 0, center).value,
                         PointAt(sc.index, 0, second).value) == Some(r.state.occ)
    ensures !(first == center || first == second || center == second)
            && PointAt(sc.index, 0, first).Some? && PointAt(sc.index, 0, center).Some? && PointAt(sc.index, 0, second).Some?
            && ArcPreview(k, sc.occ, PointAt(sc.index, 0, first).value, PointAt(sc.index, 0, center).value,
                          PointAt(sc.index, 0, second).value).None? ==>
              !r.Done?
    ensures r.Defined() ==> WellFormed(r.state) && r.state.occ.history == sc.occ.history
    ensures O.Valid(k, sc.occ) && r.Defined() ==> O.Valid(k, r.state.occ)
  {
    if first == center || first == second || center == second then Done(sc)
    else ArcOnPreview(k, sc.(occ := O.Visualize(k, sc.occ)), first, center, second)
  }

  /** `VisualizeAddArc` once the preview is open: read the three points of
      shape 0 (any read may throw), then build the arc in the last slot. */
  function ArcOnPreview<S, E>(k: Kernel<S, E>, sc: Scene<S, E>, first: int, center: int, second: int): (r: Run<Scene<S, E>>)
    requires WellFormed(sc)
    ensures PointAt(sc.index, 0, first).None? || PointAt(sc.index, 0, center).None? || PointAt(sc.index, 0, second).None? ==>
              r == Threw(sc)
    ensures r.Defined() ==> WellFormed(r.state) && O.OnlySlotChanged(sc.occ, r.state.occ, ToInt32(O.GetShapeCount(sc.occ) - 1))
    ensures O.Valid(k, sc.occ) && r.Defined() ==> O.Valid(k, r.state.occ)
  {
    var slot := ToInt32(O.GetShapeCount(sc.occ) - 1);
    var a, b, c := PointAt(sc.index, 0, first), PointAt(sc.index, 0, center), PointAt(sc.index, 0, second);
    if a.None? || b.None? || c.None? then Threw(sc)
    else ArcInSlot(k, sc, slot, a.value, b.value, c.value)
  }

  /** The tail of `VisualizeAddArc`: three vertices into the scratch slot,
      then the arc through them (vertex IDs 0, 1, 2), no save. */
  function ArcInSlot<S, E>(k: Kernel<S, E>, sc: Scene<S, E>, slot: Int32, a: Vec3, b: Vec3, c: Vec3): (r: Run<Scene<S, E>>)
    requires WellFormed(sc)
    ensures r.Defined() ==> WellFormed(r.state) && O.OnlySlotChanged(sc.occ, r.state.occ, slot)
    ensures r.Done? ==>
              O.AddArcCircle(k, O.AddPoints(k, sc.occ, slot, [a, b, c]), slot, 0, 1, 2).Some?
              && r.state.occ == O.AddArcCircle(k, O.AddPoints(k, sc.occ, slot, [a, b, c]), slot, 0, 1, 2).value
    ensures AddPreviewPoints(k, sc, slot, [a, b, c]).Done? ==>
              (r.Undefined? <==> O.AddArcCircle(k, O.AddPoints(k, sc.occ, slot, [a, b, c]), slot, 0, 1, 2).None?)
    ensures O.Valid(k, sc.occ) && r.Defined() ==> O.Valid(k, r.state.occ)
  {
    var added := AddPreviewPoints(k, sc, slot, [a, b, c]);
    if added.Done? then
      var arc := AddArc(k, added.state, slot, 0, 1, 2, false);
      if arc.Defined() then
        SlotChangesCompose(sc.occ, added.state.occ, arc.state.occ, slot);
        arc
      else arc
    else added
  }

  /** The index's list for shape 0 shows shape 0's stored vertices (an
      absent list counts as empty). */
  predicate ShowsShapeZero<S, E>(k: Kernel<S, E>, sc: Scene<S, E>)
    requires O.Aligned(sc.occ)
  {
    && 0 < |sc.occ.shapes|
    && (if 0 < |sc.index.points| then sc.index.points[0] else []) == PointRecordsOf(k, sc.occ, 0)
  }

  /** The positions at the given IDs of a vertex list, in the IDs' order. */
  function Picked(vs: seq<Vec3>, ids: seq<int>): (r: seq<Vec3>)
    requires forall i :: 0 <= i < |ids| ==> 0 <= ids[i] < |vs|
    ensures |r| == |ids| && forall i :: 0 <= i < |ids| ==> r[i] == vs[ids[i]]
  {
    seq(|ids|, i requires 0 <= i < |ids| => vs[ids[i]])
  }

  /** The loop of `VisualizeAddSpline` from ID `j` on: read the point of
      shape 0 (which may throw), then add it without a save; each read sees
      the index as the previous redraw left it. */
  function CopySplinePoints<S, E>(k: Kernel<S, E>, sc: Scene<S, E>, slot: Int32, ids: seq<int>, j: nat): (r: Run<Scene<S, E>>)
    requires WellFormed(sc) && j <= |ids|
    decreases |ids| - j
    ensures r.Defined() && WellFormed(r.state) && O.OnlySlotChanged(sc.occ, r.state.occ, slot)
    ensures O.Valid(k, sc.occ) ==> O.Valid(k, r.state.occ)
  {
    if j == |ids| then Done(sc)
    else
      match PointAt(sc.index, 0, ids[j])
      case None => Threw(sc)
      case Some(p) =>
        var step := AddPoint(k, sc, slot, p, false);
        if step.Done? then CopySplinePoints(k, step.state, slot, ids, j + 1) else step
  }

  /** What a run `r` of the loop from ID `j` on has copied: when the index
      shows shape 0 and the scratch slot is not shape 0, a completed run has
      read shape 0's stored vertices at the IDs and added them in order. */
  ghost predicate CopiedShapeZero<S, E>(k: Kernel<S, E>, sc: Scene<S, E>, slot: Int32, ids: seq<int>, j: nat, r: Run<Scene<S, E>>)
    requires O.Aligned(sc.occ) && j <= |ids|
  {
    0 < slot && |sc.occ.shapes| <= Int32Max && ShowsShapeZero(k, sc) && r.Done? ==>
      && (forall i :: j <= i < |ids| ==> 0 <= ids[i] < |sc.occ.vertices[0]|)
      && r.state.occ == O.AddPoints(k, sc.occ, slot, Picked(sc.occ.vertices[0], ids[j..]))
  }

  /** Editing a slot other than shape 0 leaves shape 0's records as they
      were, so every read finds shape 0's stored vertex. */
  lemma {:induction false} CopySplinePointsReadsShapeZero<S, E>(k: Kernel<S, E>, sc: Scene<S, E>, slot: Int32, ids: seq<int>, j: nat)
    requires WellFormed(sc) && j <= |ids|
    decreases |ids| - j, 1
    ensures CopiedShapeZero(k, sc, slot, ids, j, CopySplinePoints(k, sc, slot, ids, j))
  {
    if j == |ids| {
      assert ids[j..] == [];
    } else if 0 < slot && |sc.occ.shapes| <= Int32Max && ShowsShapeZero(k, sc) && PointAt(sc.index, 0, ids[j]).Some? {
      var p := PointAt(sc.index, 0, ids[j]).value;
      var step := AddPoint(k, sc, slot, p, false);
      if step.Done? {
        SplineStepReadsShapeZero(k, sc, slot, ids, j, p, step);
      }
    }
  }

  /** The inductive step of `CopySplinePointsReadsShapeZero`: one copied
      vertex, then the rest of the loop from the redrawn scene. */
  lemma {:induction false} SplineStepReadsShapeZero<S, E>(k: Kernel<S, E>, sc: Scene<S, E>, slot: Int32, ids: seq<int>, j: nat, p: Vec3, step: Run<Scene<S, E>>)
    requires WellFormed(sc) && j < |ids| && PointAt(sc.index, 0, ids[j]) == Some(p)
    requires step == AddPoint(k, sc, slot, p, false) && step.Done?
    requires 0 < slot && |sc.occ.shapes| <= Int32Max && ShowsShapeZero(k, sc)
    decreases |ids| - j, 0
    ensures CopiedShapeZero(k, sc, slot, ids, j, CopySplinePoints(k, sc, slot, ids, j))
  {
    SplineStep(k, sc, slot, ids, j, p, step);
    CopySplinePointsReadsShapeZero(k, step.state, slot, ids, j + 1);
    SplineCompose(k, sc, step.state, slot, ids, j, CopySplinePoints(k, sc, slot, ids, j));
  }

  /** Adding the picked positions from `j` on is adding the one at `j`,
      then the rest. */
  lemma PickedAddPoints<S, E>(k: Kernel<S, E>, m: O.Manager<S, E>, slot: Int32, vs: seq<Vec3>, ids: seq<int>, j: nat)
    requires O.Aligned(m) && j < |ids| && 0 <= ids[j] < |vs|
    ensures (forall i :: j < i < |ids| ==> 0 <= ids[i] < |vs|) ==>
              && (forall i :: j <= i < |ids| ==> 0 <= ids[i] < |vs|)
              && O.AddPoints(k, m, slot, Picked(vs, ids[j..]))
                 == O.AddPoints(k, O.AddPoint(k, m, slot, vs[ids[j]]), slot, Picked(vs, ids[j + 1..]))
  {
    if forall i :: j < i < |ids| ==> 0 <= ids[i] < |vs| {
      PickedSplits(vs, ids, j);
      var rest := Picked(vs, ids[j + 1..]);
      assert ([vs[ids[j]]] + rest)[0] == vs[ids[j]] && ([vs[ids[j]]] + rest)[1..] == rest;
    }
  }

  /** The preview vertices of `VisualizeAddSpline` from ID `j` on. When the
      index shows shape 0 and the scratch slot is not shape 0, a completed
      run has read shape 0's stored vertices at the IDs and added them in
      the IDs' order. */
  function AddSplinePoints<S, E>(k: Kernel<S, E>, sc: Scene<S, E>, slot: Int32, ids: seq<int>, j: nat): (r: Run<Scene<S, E>>)
    requires WellFormed(sc) && j <= |ids|
    ensures r.Defined() && WellFormed(r.state) && O.OnlySlotChanged(sc.occ, r.state.occ, slot)
    ensures 0 < slot && |sc.occ.shapes| <= Int32Max && ShowsShapeZero(k, sc) && r.Done? ==>
              && (forall i :: j <= i < |ids| ==> 0 <= ids[i] < |sc.occ.vertices[0]|)
              && r.state.occ == O.AddPoints(k, sc.occ, slot, Picked(sc.occ.vertices[0], ids[j..]))
    ensures O.Valid(k, sc.occ) ==> O.Valid(k, r.state.occ)
  {
    CopySplinePointsReadsShapeZero(k, sc, slot, ids, j);
    CopySplinePoints(k, sc, slot, ids, j)
  }

  /** One copied vertex of the spline preview: a read that finds its point
      finds shape 0's stored vertex, the redrawn index still shows shape 0,
      and the loop goes on from the redrawn scene. */
  lemma SplineStep<S, E>(k: Kernel<S, E>, sc: Scene<S, E>, slot: Int32, ids: seq<int>, j: nat, p: Vec3, step: Run<Scene<S, E>>)
    requires WellFormed(sc) && j < |ids| && PointAt(sc.index, 0, ids[j]) == Some(p)
    requires step == AddPoint(k, sc, slot, p, false) && step.Done?
    requires 0 < slot && |sc.occ.shapes| <= Int32Max && ShowsShapeZero(k, sc)
    ensures WellFormed(step.state) && |step.state.occ.shapes| == |sc.occ.shapes| && ShowsShapeZero(k, step.state)
    ensures 0 <= ids[j] < |sc.occ.vertices[0]| && p == sc.occ.vertices[0][ids[j]]
    ensures step.state.occ == O.AddPoint(k, sc.occ, slot, p) && step.state.occ.vertices[0] == sc.occ.vertices[0]
    ensures CopySplinePoints(k, sc, slot, ids, j) == CopySplinePoints(k, step.state, slot, ids, j + 1)
  {
    var m := step.state.occ;
    assert O.OnlySlotChanged(sc.occ, m, slot);
    assert m.vertices[0] == sc.occ.vertices[0];
    assert PointRecordsOf(k, m, 0) == PointRecordsOf(k, sc.occ, 0);
    assert Shows(k, step.state);
    assert DrawCount(m) == |m.shapes|;
    assert PointTable(k, m, DrawCount(m))[0] == PointRecordsOf(k, m, 0);
  }

  /** What the rest of the loop copies, from the scene after one added
      vertex, extends to the whole loop. */
  lemma SplineCompose<S, E>(k: Kernel<S, E>, sc: Scene<S, E>, next: Scene<S, E>, slot: Int32, ids: seq<int>, j: nat, r: Run<Scene<S, E>>)
    requires O.Aligned(sc.occ) && O.Aligned(next.occ) && j < |ids|
    requires 0 < slot && |sc.occ.shapes| <= Int32Max && ShowsShapeZero(k, sc)
    requires |next.occ.shapes| == |sc.occ.shapes| && ShowsShapeZero(k, next)
    requires 0 <= ids[j] < |sc.occ.vertices[0]|
    requires next.occ == O.AddPoint(k, sc.occ, slot, sc.occ.vertices[0][ids[j]]) && next.occ.vertices[0] == sc.occ.vertices[0]
    ensures CopiedShapeZero(k, next, slot, ids, j + 1, r) ==> CopiedShapeZero(k, sc, slot, ids, j, r)
  {
    PickedAddPoints(k, sc.occ, slot, sc.occ.vertices[0], ids, j);
  }

  /** The positions still to copy split off the first one. */
  lemma PickedSplits(vs: seq<Vec3>, ids: seq<int>, j: nat)
    requires j < |ids|
    ensures (forall i :: j <= i < |ids| ==> 0 <= ids[i] < |vs|) ==>
              Picked(vs, ids[j..]) == [vs[ids[j]]] + Picked(vs, ids[j + 1..])
  {
    assert ids[j..][1..] == ids[j + 1..];
  }

  /** The IDs `0 .. n - 1` of the scratch shape's new vertices. */
  function FirstIds(n: nat): (r: seq<Int32>)
    ensures |r| == n && forall j :: 0 <= j < n ==> r[j] == ToInt32(j)
  {
    seq(n, j => ToInt32(j))
  }

  /** The kernel once `VisualizeAddSpline` has opened its preview: any
      preview is ended when there is more than one shape, and a new scratch
      shape is appended. */
  function SplineOpened<S, E>(k: Kernel<S, E>, m: O.Manager<S, E>): (r: O.Manager<S, E>)
    requires O.Aligned(m)
    ensures O.Aligned(r) && r.history == m.history
    ensures |m.shapes| < Int32Max ==> O.PreviewOver(r, Closed(m))
    ensures O.Valid(k, m) ==> O.Valid(k, r)
  {
    O.EndVisualizationKeepsValidIf(k, m);
    var m0 := if O.GetShapeCount(m) > 1 then O.EndVisualization(m) else m;
    EndingFirstKeepsClosed(k, m);
    O.Visualize(k, m0)
  }

  /** Ending the preview before opening a new one changes nothing about
      the kernel the new preview sits on. */
  lemma EndingFirstKeepsClosed<S, E>(k: Kernel<S, E>, m: O.Manager<S, E>)
    requires O.Aligned(m)
    ensures var m0 := if O.GetShapeCount(m) > 1 then O.EndVisualization(m) else m;
            |m.shapes| < Int32Max ==> O.PreviewOver(O.Visualize(k, m0), Closed(m))
  {
    var m0 := if O.GetShapeCount(m) > 1 then O.EndVisualization(m) else m;
    if |m.shapes| < Int32Max {
      VisualizeOverClosed(k, m0);
      assert Closed(m0) == Closed(m);
    }
  }

  /** What the spline preview makes of the kernel `m` and the positions
      read: a scratch shape holding the positions as vertices `0 .. n - 1`
      and the spline fitted through them. */
  ghost function SplinePreview<S, E>(k: Kernel<S, E>, m: O.Manager<S, E>, ps: seq<Vec3>): O.Manager<S, E>
    requires O.Aligned(m)
  {
    var v := SplineOpened(k, m);
    var slot := ToInt32(O.GetShapeCount(v) - 1);
    O.AddSpline(k, O.AddPoints(k, v, slot, ps), slot, FirstIds(|ps|))
  }

  /** `VisualizeAddSpline(ids)`: with at least two IDs, end a preview when
      there is more than one shape, open a new one, copy the points of
      shape 0 into the scratch shape in order, and fit the spline there,
      with a redraw after each step and no save. The saved shapes are left
      alone; when the index shows shape 0 and some saved shape precedes the
      scratch one, a completed preview is the spline through shape 0's
      stored vertices at the given IDs. */
  function VisualizeAddSpline<S, E>(k: Kernel<S, E>, sc: Scene<S, E>, ids: seq<int>): (r: Run<Scene<S, E>>)
    requires WellFormed(sc)
    ensures |ids| < 2 ==> r == Done(sc)
    ensures r.Defined() && WellFormed(r.state) && r.state.occ.history == sc.occ.history
    ensures |ids| >= 2 && |sc.occ.shapes| < Int32Max ==> O.PreviewOver(r.state.occ, Closed(sc.occ))
    ensures |ids| >= 2 && |sc.occ.shapes| < Int32Max && 0 < |Closed(sc.occ).shapes| && ShowsShapeZero(k, sc) && r.Done? ==>
              && (forall i :: 0 <= i < |ids| ==> 0 <= ids[i] < |sc.occ.vertices[0]|)
              && r.state.occ == SplinePreview(k, sc.occ, Picked(sc.occ.vertices[0], ids))
    ensures O.Valid(k, sc.occ) ==> O.Valid(k, r.state.occ)
  {
    if |ids| < 2 then Done(sc)
    else
      var m := SplineOpened(k, sc.occ);
      var slot := ToInt32(O.GetShapeCount(m) - 1);
      var added := AddSplinePoints(k, sc.(occ := m), slot, ids, 0);
      if added.Done? then
        var r := AddSpline(k, added.state, slot, FirstIds(|ids|), false);
        SplineTail(k, sc, m, slot, added.state, r.state);
        r
      else
        SplineTail(k, sc, m, slot, added.state, added.state);
        added
  }

  /** The scratch edits of `VisualizeAddSpline` keep the preview over the
      closed kernel, and the opened kernel agrees with the original on
      shape 0 when a saved shape precedes the scratch one. */
  lemma SplineTail<S, E>(k: Kernel<S, E>, sc: Scene<S, E>, m: O.Manager<S, E>, slot: Int32, a: Scene<S, E>, b: Scene<S, E>)
    requires WellFormed(sc) && m == SplineOpened(k, sc.occ) && slot == ToInt32(O.GetShapeCount(m) - 1)
    requires O.OnlySlotChanged(m, a.occ, slot) && O.OnlySlotChanged(a.occ, b.occ, slot)
    ensures |sc.occ.shapes| < Int32Max ==> slot == |m.shapes| - 1 && O.PreviewOver(b.occ, Closed(sc.occ))
    ensures |sc.occ.shapes| < Int32Max && 0 < |Closed(sc.occ).shapes| ==>
              0 < slot && |m.shapes| <= Int32Max && m.vertices[0] == sc.occ.vertices[0]
              && (ShowsShapeZero(k, sc) ==> ShowsShapeZero(k, sc.(occ := m)))
  {
    if |sc.occ.shapes| < Int32Max {
      SlotChangesCompose(m, a.occ, b.occ, slot);
      O.ScratchEditKeepsPreview(m, b.occ, Closed(sc.occ));
      if 0 < |Closed(sc.occ).shapes| {
        assert m.vertices[0] == Closed(sc.occ).vertices[0];
        assert Closed(sc.occ).vertices[0] == sc.occ.vertices[0];
        assert PointRecordsOf(k, m, 0) == PointRecordsOf(k, sc.occ, 0);
      }
    }
  }

  /** Opening a spline preview on a kernel without one and closing it
      again gives the kernel back unchanged. */
  lemma SplinePreviewRoundTrip<S, E>(k: Kernel<S, E>, sc: Scene<S, E>, ids: seq<int>)
    requires WellFormed(sc) && |sc.occ.shapes| < Int32Max && !sc.occ.visualizing
    ensures EndCurveAddingVisualization(k, VisualizeAddSpline(k, sc, ids).state).state.occ == sc.occ
  {
    var v := VisualizeAddSpline(k, sc, ids).state;
    if |ids| >= 2 {
      O.PreviewRoundTrip(v.occ, sc.occ);
    }
  }

  /** `EndArcAddingVisualization()` and `EndSplineAddingVisualization()`,
      which have the same body: close the preview, then redraw. */
  function EndCurveAddingVisualization<S, E>(k: Kernel<S, E>, sc: Scene<S, E>): (r: Run<Scene<S, E>>)
    requires WellFormed(sc)
    ensures r.Defined() && WellFormed(r.state) && r.state.occ.history == sc.occ.history
    ensures !sc.occ.visualizing ==> r.state.occ == sc.occ
    ensures sc.occ.visualizing && 0 < |sc.occ.shapes| <= Int32Max + 1 ==>
              !r.state.occ.visualizing && O.Live(r.state.occ) == O.Live(O.DeleteShape(sc.occ, ToInt32(|sc.occ.shapes| - 1)))
    ensures O.Valid(k, sc.occ) ==> O.Valid(k, r.state.occ)
    ensures r.Done? ==> Shows(k, r.state)
  {
    O.EndVisualizationKeepsValidIf(k, sc.occ);
    Draw(k, sc.(occ := O.EndVisualization(sc.occ)))
  }

  /** `Draw()` over a new kernel state, seen from the navigation
      routines. */
  function Redraw<S, E>(k: Kernel<S, E>, sc: Scene<S, E>, m: O.Manager<S, E>): (r: Run<Scene<S, E>>)
    requires O.Aligned(m) && O.SnapshotsAligned(m.history)
    ensures r.Defined() && WellFormed(r.state) && r.state.occ == m
    ensures r.Done? ==> Shows(k, r.state)
  {
    Draw(k, sc.(occ := m))
  }

  /** `u` is `m` one step back in its history: unchanged with the cursor at
      the oldest entry or before it; otherwise the cursor moved back one
      entry, and the live state is that entry's snapshot when it indexes
      one and is left alone when it does not. */
  ghost predicate SteppedBack<S, E>(m: O.Manager<S, E>, u: O.Manager<S, E>) {
    var h := m.history;
    && (h.position <= 0 ==> u == m)
    && (h.position > 0 ==> u.history == h.(position := h.position - 1))
    && (H.Parallel(h) && 0 < h.position && h.position - 1 < |h.shapeStack| ==> O.Live(u) == H.Snapshot(h, h.position - 1))
    && (h.position > 0 && h.position - 1 >= |h.shapeStack| ==> O.Live(u) == O.Live(m))
  }

  /** `u` is `m` one step forward in its history: unchanged unless the
      cursor, compared unsigned, lies below the newest entry; otherwise the
      cursor moved forward one entry, and the live state is that entry's
      snapshot when it indexes one and is left alone when it does not. */
  ghost predicate SteppedForward<S, E>(m: O.Manager<S, E>, u: O.Manager<S, E>) {
    var h := m.history;
    && (!H.RedoMoves(h) ==> u == m)
    && (H.RedoMoves(h) ==> u.history == h.(position := ToInt32(h.position + 1)))
    && (H.Parallel(h) && H.Fits(h) && H.RedoMoves(h) && 0 <= h.position + 1 < |h.shapeStack| ==>
          O.Live(u) == H.Snapshot(h, h.position + 1))
    && (H.Fits(h) && H.RedoMoves(h) && !(0 <= h.position + 1 < |h.shapeStack|) ==> O.Live(u) == O.Live(m))
  }

  /** `undo()`: one step back in the history, then a redraw. */
  function Undo<S, E>(k: Kernel<S, E>, sc: Scene<S, E>): (r: Run<Scene<S, E>>)
    requires WellFormed(sc)
    ensures r.Defined() && WellFormed(r.state) && r.state.occ.visualizing == sc.occ.visualizing
    ensures SteppedBack(sc.occ, r.state.occ)
    ensures O.Valid(k, sc.occ) ==> O.Valid(k, r.state.occ)
    ensures r.Done? ==> Shows(k, r.state)
  {
    UndoFacts(k, sc.occ);
    Redraw(k, sc, O.Undo(sc.occ))
  }

  /** The kernel side of `undo()`. */
  lemma UndoFacts<S, E>(k: Kernel<S, E>, m: O.Manager<S, E>)
    requires O.Aligned(m) && O.SnapshotsAligned(m.history)
    ensures var u := O.Undo(m);
            && O.Aligned(u) && O.SnapshotsAligned(u.history) && u.visualizing == m.visualizing
            && SteppedBack(m, u)
            && (O.Valid(k, m) ==> O.Valid(k, u))
  {
    O.UndoKeepsValidIf(k, m);
    O.UndoKeepsAligned(m);
  }

  /** `redo()`: one step forward in the history, then a redraw. */
  function Redo<S, E>(k: Kernel<S, E>, sc: Scene<S, E>): (r: Run<Scene<S, E>>)
    requires WellFormed(sc)
    ensures r.Defined() && WellFormed(r.state) && r.state.occ.visualizing == sc.occ.visualizing
    ensures SteppedForward(sc.occ, r.state.occ)
    ensures O.Valid(k, sc.occ) ==> O.Valid(k, r.state.occ)
    ensures r.Done? ==> Shows(k, r.state)
  {
    RedoFacts(k, sc.occ);
    Redraw(k, sc, O.Redo(sc.occ))
  }

  /** The kernel side of `redo()`. */
  lemma RedoFacts<S, E>(k: Kernel<S, E>, m: O.Manager<S, E>)
    requires O.Aligned(m) && O.SnapshotsAligned(m.history)
    ensures var u := O.Redo(m);
            && O.Aligned(u) && O.SnapshotsAligned(u.history) && u.visualizing == m.visualizing
            && SteppedForward(m, u)
            && (O.Valid(k, m) ==> O.Valid(k, u))
  {
    O.RedoKeepsValidIf(k, m);
    O.RedoKeepsAligned(m);
  }

  /** `LoadSaveState(position)`: jump in the history; redraw only when the
      kernel reports a change. A jump the kernel cannot print is
      undefined. */
  function LoadSaveState<S, E>(k: Kernel<S, E>, sc: Scene<S, E>, position: Int32): (r: Run<Scene<S, E>>)
    requires WellFormed(sc)
    ensures r.Undefined? <==> H.LoadOverflows(sc.occ.history, position)
    ensures r.Defined() ==> WellFormed(r.state)
    ensures position == sc.occ.history.position ==> r == Done(sc)
    ensures position != sc.occ.history.position && r.Defined() ==> r.state.occ.history == sc.occ.history.(position := position)
    ensures H.Fits(sc.occ.history) && r.Defined() && position != sc.occ.history.position && 0 <= position < |sc.occ.history.shapeStack| ==>
              O.Live(r.state.occ) == H.Snapshot(sc.occ.history, position)
    ensures H.Fits(sc.occ.history) && r.Defined() && !(0 <= position < |sc.occ.history.shapeStack|) ==>
              O.Live(r.state.occ) == O.Live(sc.occ)
    ensures O.Valid(k, sc.occ) && r.Defined() ==> O.Valid(k, r.state.occ)
    ensures position != sc.occ.history.position && r.Done? ==> Shows(k, r.state)
  {
    O.LoadKeepsValidIf(k, sc.occ, position);
    O.LoadKeepsAligned(sc.occ, position);
    match O.LoadState(sc.occ, position)
    case None => Undefined
    case Some((m, changed)) => if changed then Redraw(k, sc, m) else Done(sc.(occ := m))
  }

  /** Two managers differing at most in one slot compose. */
  lemma SlotChangesCompose<S, E>(a: O.Manager<S, E>, b: O.Manager<S, E>, c: O.Manager<S, E>, slot: int)
    ensures O.OnlySlotChanged(a, b, slot) && O.OnlySlotChanged(b, c, slot) ==> O.OnlySlotChanged(a, c, slot)
  {
  }

  /** The arc preview never touches the saved shapes: afterwards the kernel
      holds the shapes it held with any earlier preview closed, plus one
      scratch shape. */
  lemma {:induction false} ArcPreviewKeepsSavedShapes<S, E>(k: Kernel<S, E>, sc: Scene<S, E>, first: int, center: int, second: int)
    requires WellFormed(sc) && |sc.occ.shapes| < Int32Max
    requires !(first == center || first == second || center == second)
    requires VisualizeAddArc(k, sc, first, center, second).Defined()
    ensures O.PreviewOver(VisualizeAddArc(k, sc, first, center, second).state.occ, Closed(sc.occ))
  {
    var m := O.Visualize(k, sc.occ);
    VisualizeOverClosed(k, sc.occ);
    O.ScratchEditKeepsPreview(m, ArcOnPreview(k, sc.(occ := m), first, center, second).state.occ, Closed(sc.occ));
  }

  /** Opening an arc preview on a kernel without one and closing it again
      gives the kernel back unchanged. */
  lemma ArcPreviewRoundTrip<S, E>(k: Kernel<S, E>, sc: Scene<S, E>, first: int, center: int, second: int)
    requires WellFormed(sc) && |sc.occ.shapes| < Int32Max && !sc.occ.visualizing
    requires VisualizeAddArc(k, sc, first, center, second).Defined()
    ensures EndCurveAddingVisualization(k, VisualizeAddArc(k, sc, first, center, second).state).state.occ == sc.occ
  {
    var v := VisualizeAddArc(k, sc, first, center, second).state;
    if !(first == center || first == second || center == second) {
      ArcPreviewKeepsSavedShapes(k, sc, first, center, second);
      O.PreviewRoundTrip(v.occ, sc.occ);
    }
  }

  /** Closing a preview leaves the scratch shape's records in the index:
      the redraw walks only the saved shapes, so the lists past them keep
      what the last preview drew and stay pickable. */
  lemma ClosedPreviewStaysPickable<S, E>(k: Kernel<S, E>, v: Scene<S, E>, base: O.Manager<S, E>)
    requires WellFormed(v) && O.PreviewOver(v.occ, base) && !base.visualizing && |v.occ.shapes| <= Int32Max
    requires |base.shapes| < |v.index.curves| && |base.shapes| < |v.index.points| && |base.shapes| < |v.index.surfaces|
    ensures var n := |base.shapes|;
            var r := EndCurveAddingVisualization(k, v).state.index;
            r.curves[n] == v.index.curves[n] && r.points[n] == v.index.points[n] && r.surfaces[n] == v.index.surfaces[n]
  {
    O.PreviewRoundTrip(v.occ, base);
  }

  /** Undoing and redoing through the scene restores the current entry. */
  lemma {:induction false} SceneUndoRedoRoundTrip<S, E>(k: Kernel<S, E>, sc: Scene<S, E>)
    requires WellFormed(sc) && H.Settled(sc.occ.history) && H.Fits(sc.occ.history) && sc.occ.history.position > 0
    ensures var u := Undo(k, sc).state;
            var r := Redo(k, u).state;
            r.occ.history == sc.occ.history && O.Live(r.occ) == H.Snapshot(sc.occ.history, sc.occ.history.position)
  {
    var h := sc.occ.history;
    var u := Undo(k, sc).state;
    assert SteppedBack(sc.occ, u.occ);
    assert u.occ.history == h.(position := h.position - 1);
    assert H.Settled(u.occ.history) && H.Fits(u.occ.history);
    assert u.occ.history.position < |u.occ.history.shapeStack| - 1;
    assert SteppedForward(u.occ, Redo(k, u).state.occ);
  }
}
