/** The kernel module's `OCCManager` (`occmanager.cpp`): three parallel
    per-shape lists (the shapes, their stored vertices and their stored
    edges), the undo history over those lists, and the flag that marks the
    last shape as a scratch preview. */
module OccManager {
  import opened Outcomes
  import opened CInt
  import opened Geometry
  import opened OccKernel
  import H = History

  /** The history over the three per-shape lists. */
  type Snapshots<S, E> = H.History<seq<S>, seq<seq<Vec3>>, seq<seq<E>>>

  datatype Manager<S, E> = Manager(
    shapes: seq<S>,
    vertices: seq<seq<Vec3>>,
    edges: seq<seq<E>>,
    history: Snapshots<S, E>,
    /** `visualization_active`: the last shape is a preview, not a saved one. */
    visualizing: bool)

  /** A freshly constructed manager: no shapes, an empty history with the
      cursor at -1, no preview. */
  function Init<S, E>(): Manager<S, E> {
    Manager([], [], [], H.Empty(), false)
  }

  /** The part of the manager a snapshot copies. */
  function Live<S, E>(m: Manager<S, E>): H.Live<seq<S>, seq<seq<Vec3>>, seq<seq<E>>> {
    H.Live(m.shapes, m.vertices, m.edges)
  }

  /** The three per-shape lists have one entry per shape. */
  predicate Aligned<S, E>(m: Manager<S, E>) {
    |m.vertices| == |m.shapes| && |m.edges| == |m.shapes|
  }

  /** The history stacks are parallel and every snapshot's per-shape lists
      have one entry per shape. */
  predicate SnapshotsAligned<S, E>(h: Snapshots<S, E>) {
    && H.Parallel(h)
    && forall p :: 0 <= p < |h.shapeStack| ==> |h.vertexStack[p]| == |h.shapeStack[p]| && |h.edgeStack[p]| == |h.shapeStack[p]|
  }

  /** Slot `i` of the vertex and edge lists holds what the kernel reports for
      shape `i`. */
  ghost predicate Describes<S, E>(k: Kernel<S, E>, shapes: seq<S>, vertices: seq<seq<Vec3>>, edges: seq<seq<E>>) {
    && |vertices| == |shapes| && |edges| == |shapes|
    && forall i :: 0 <= i < |shapes| ==> vertices[i] == VertexList(k, shapes[i]) && edges[i] == EdgeList(k, shapes[i])
  }

  /** The invariant of every manager built by the operations below: the live
      lists and every saved snapshot describe their shapes. */
  ghost predicate Valid<S, E>(k: Kernel<S, E>, m: Manager<S, E>) {
    && Describes(k, m.shapes, m.vertices, m.edges)
    && H.Parallel(m.history)
    && forall p :: 0 <= p < |m.history.shapeStack| ==>
         Describes(k, m.history.shapeStack[p], m.history.vertexStack[p], m.history.edgeStack[p])
  }

  /** `r` differs from `m` at most in slot `index` of the three lists. */
  ghost predicate OnlySlotChanged<S, E>(m: Manager<S, E>, r: Manager<S, E>, index: int) {
    && |r.shapes| == |m.shapes| && |r.vertices| == |m.vertices| && |r.edges| == |m.edges|
    && r.history == m.history && r.visualizing == m.visualizing
    && (forall i :: 0 <= i < |m.shapes| && i != index ==> r.shapes[i] == m.shapes[i])
    && (forall i :: 0 <= i < |m.vertices| && i != index ==> r.vertices[i] == m.vertices[i])
    && (forall i :: 0 <= i < |m.edges| && i != index ==> r.edges[i] == m.edges[i])
  }

  lemma InitValid<S, E>(k: Kernel<S, E>)
    ensures Valid(k, Init<S, E>()) && H.Settled(Init<S, E>().history)
    ensures Init<S, E>().history.position == -1 && !Init<S, E>().visualizing
  {
  }

  /** `store_shape(shape, index)`: a negative index appends a new slot, an
      index past the end is rejected, any other index replaces that slot.
      Each list is rewritten only when it still has one entry per shape. */
  function StoreShape<S, E>(k: Kernel<S, E>, m: Manager<S, E>, s: S, index: Int32): (r: Manager<S, E>)
    ensures r.history == m.history && r.visualizing == m.visualizing
    ensures index < 0 ==>
              && |r.shapes| == |m.shapes| + 1 && r.shapes[..|m.shapes|] == m.shapes && r.shapes[|m.shapes|] == s
              && |r.vertices| == |m.vertices| + 1 && r.vertices[..|m.vertices|] == m.vertices
              && |r.edges| == |m.edges| + 1 && r.edges[..|m.edges|] == m.edges
    ensures index >= |m.shapes| ==> r == m
    ensures 0 <= index < |m.shapes| ==> OnlySlotChanged(m, r, index) && r.shapes[index] == s
    ensures Aligned(m) ==> Aligned(r)
    ensures Valid(k, m) ==> Valid(k, r)
  {
    if index < 0 then
      m.(shapes := m.shapes + [s], vertices := m.vertices + [VertexList(k, s)], edges := m.edges + [EdgeList(k, s)])
    else if index >= |m.shapes| then
      m
    else
      m.(shapes := m.shapes[index := s],
         vertices := if index < |m.vertices| && |m.vertices| == |m.shapes| then m.vertices[index := VertexList(k, s)] else m.vertices,
         edges := if index < |m.edges| && |m.edges| == |m.shapes| then m.edges[index := EdgeList(k, s)] else m.edges)
  }

  /** `delete_shape(index)`: remove one slot from all three lists; an index
      outside the shape list is rejected. */
  function DeleteShape<S, E>(m: Manager<S, E>, index: Int32): (r: Manager<S, E>)
    requires Aligned(m)
    ensures Aligned(r) && r.history == m.history && r.visualizing == m.visualizing
    ensures !(0 <= index < |m.shapes|) ==> r == m
    ensures 0 <= index < |m.shapes| ==>
              && |r.shapes| == |m.shapes| - 1
              && (forall i :: 0 <= i < index ==>
                    r.shapes[i] == m.shapes[i] && r.vertices[i] == m.vertices[i] && r.edges[i] == m.edges[i])
              && (forall i :: index <= i < |r.shapes| ==>
                    r.shapes[i] == m.shapes[i + 1] && r.vertices[i] == m.vertices[i + 1] && r.edges[i] == m.edges[i + 1])
  {
    if index < 0 || index >= |m.shapes| then m
    else
      m.(shapes := m.shapes[..index] + m.shapes[index + 1..],
         vertices := m.vertices[..index] + m.vertices[index + 1..],
         edges := m.edges[..index] + m.edges[index + 1..])
  }

  lemma DeleteKeepsValid<S, E>(k: Kernel<S, E>, m: Manager<S, E>, index: Int32)
    requires Valid(k, m)
    ensures Valid(k, DeleteShape(m, index))
  {
  }

  /** `end_visualization()`: while a preview is open, delete the last slot
      and clear the flag. With no shapes left it reports an error and keeps
      the flag set. The slot index is the list size narrowed to `int`. */
  function EndVisualization<S, E>(m: Manager<S, E>): (r: Manager<S, E>)
    requires Aligned(m)
    ensures Aligned(r) && r.history == m.history
    ensures !m.visualizing ==> r == m
    ensures m.visualizing && |m.shapes| == 0 ==> r == m
    ensures m.visualizing && 0 < |m.shapes| <= Int32Max + 1 ==>
              && !r.visualizing
              && r.shapes == m.shapes[..|m.shapes| - 1]
              && r.vertices == m.vertices[..|m.shapes| - 1]
              && r.edges == m.edges[..|m.shapes| - 1]
  {
    if !m.visualizing || |m.shapes| == 0 then m
    else DeleteShape(m, ToInt32(|m.shapes| - 1)).(visualizing := false)
  }

  lemma EndVisualizationKeepsValid<S, E>(k: Kernel<S, E>, m: Manager<S, E>)
    requires Valid(k, m)
    ensures Valid(k, EndVisualization(m))
  {
    if m.visualizing && |m.shapes| > 0 {
      DeleteKeepsValid(k, m, ToInt32(|m.shapes| - 1));
    }
  }

  lemma EndVisualizationKeepsValidIf<S, E>(k: Kernel<S, E>, m: Manager<S, E>)
    ensures Aligned(m) && Valid(k, m) ==> Valid(k, EndVisualization(m))
  {
    if Aligned(m) && Valid(k, m) {
      EndVisualizationKeepsValid(k, m);
    }
  }

  /** `visualize()`: close any open preview, append an empty compound as the
      scratch shape and set the flag. */
  function Visualize<S, E>(k: Kernel<S, E>, m: Manager<S, E>): (r: Manager<S, E>)
    requires Aligned(m)
    ensures Aligned(r) && r.visualizing && r.history == m.history
    ensures |r.shapes| > 0 && r.shapes[|r.shapes| - 1] == k.emptyCompound
    ensures !m.visualizing ==> r.shapes == m.shapes + [k.emptyCompound]
    ensures m.visualizing && 0 < |m.shapes| <= Int32Max + 1 ==> |r.shapes| == |m.shapes|
    ensures Valid(k, m) ==> Valid(k, r)
  {
    var closed := if m.visualizing then EndVisualization(m) else m;
    StoreShape(k, closed, k.emptyCompound, -1).(visualizing := true)
  }

  /** `m` is `base` with one scratch shape appended and the flag set. */
  ghost predicate PreviewOver<S, E>(m: Manager<S, E>, base: Manager<S, E>) {
    && m.visualizing && m.history == base.history
    && |m.shapes| == |base.shapes| + 1 && m.shapes[..|base.shapes|] == base.shapes
    && |m.vertices| == |base.vertices| + 1 && m.vertices[..|base.vertices|] == base.vertices
    && |m.edges| == |base.edges| + 1 && m.edges[..|base.edges|] == base.edges
  }

  /** Opening a preview puts exactly one scratch shape after the saved ones. */
  lemma VisualizeOpensPreview<S, E>(k: Kernel<S, E>, m: Manager<S, E>)
    requires Aligned(m) && !m.visualizing
    ensures PreviewOver(Visualize(k, m), m)
  {
  }

  /** Opening a preview while one is open replaces the scratch shape: there
      is never more than one. */
  lemma VisualizeReplacesPreview<S, E>(k: Kernel<S, E>, m: Manager<S, E>, base: Manager<S, E>)
    requires Aligned(m) && PreviewOver(m, base) && |m.shapes| <= Int32Max + 1
    ensures PreviewOver(Visualize(k, m), base)
  {
    var closed := EndVisualization(m);
    assert closed.shapes == base.shapes && closed.vertices == base.vertices && closed.edges == base.edges;
  }

  /** Editing the scratch slot keeps the saved shapes in front of it. */
  lemma ScratchEditKeepsPreview<S, E>(m: Manager<S, E>, r: Manager<S, E>, base: Manager<S, E>)
    requires Aligned(m) && PreviewOver(m, base) && OnlySlotChanged(m, r, |m.shapes| - 1)
    ensures PreviewOver(r, base)
  {
    assert r.shapes[..|base.shapes|] == m.shapes[..|base.shapes|];
    assert r.vertices[..|base.vertices|] == m.vertices[..|base.vertices|];
    assert r.edges[..|base.edges|] == m.edges[..|base.edges|];
  }

  /** Closing a preview opened on `base` gives `base` back. */
  lemma {:induction false} PreviewRoundTrip<S, E>(m: Manager<S, E>, base: Manager<S, E>)
    requires Aligned(m) && PreviewOver(m, base) && !base.visualizing && |m.shapes| <= Int32Max + 1
    ensures EndVisualization(m) == base
  {
    var r := EndVisualization(m);
    assert r.shapes == m.shapes[..|base.shapes|];
    assert r.vertices == m.vertices[..|base.vertices|];
    assert r.edges == m.edges[..|base.edges|];
  }

  /** `add_point(index, x, y, z)`: replace the shape with a compound of the
      shape and a new vertex; an index outside the shape list is rejected. */
  function AddPoint<S, E>(k: Kernel<S, E>, m: Manager<S, E>, index: Int32, p: Vec3): (r: Manager<S, E>)
    requires Aligned(m)
    ensures !(0 <= index < |m.shapes|) ==> r == m
    ensures 0 <= index < |m.shapes| ==>
              OnlySlotChanged(m, r, index) && r.shapes[index] == k.withVertex(m.shapes[index], p)
              && r.vertices[index] == VertexList(k, r.shapes[index])
    ensures Aligned(r)
    ensures Valid(k, m) ==> Valid(k, r)
  {
    if index < 0 || index >= |m.shapes| then m
    else StoreShape(k, m, k.withVertex(m.shapes[index], p), index)
  }

  /** `add_point` once per position, in order, on the same shape: the
      shape gains one vertex per position and the vertex list is recomputed. */
  function AddPoints<S, E>(k: Kernel<S, E>, m: Manager<S, E>, index: Int32, ps: seq<Vec3>): (r: Manager<S, E>)
    requires Aligned(m)
    decreases |ps|
    ensures Aligned(r)
    ensures !(0 <= index < |m.shapes|) ==> r == m
    ensures 0 <= index < |m.shapes| ==>
              OnlySlotChanged(m, r, index) && r.shapes[index] == WithVertices(k, m.shapes[index], ps)
    ensures 0 <= index < |m.shapes| && ps != [] ==> r.vertices[index] == VertexList(k, r.shapes[index])
    ensures Valid(k, m) ==> Valid(k, r)
  {
    if ps == [] then m else AddPoints(k, AddPoint(k, m, index, ps[0]), index, ps[1..])
  }

  /** The guard of `add_edge`: a shape index and two vertex indices into
      that shape's stored vertices. */
  predicate EdgeArgsValid<S, E>(m: Manager<S, E>, index: int, first: int, second: int)
    requires Aligned(m)
  {
    && 0 <= index < |m.shapes|
    && 0 <= first < |m.vertices[index]|
    && 0 <= second < |m.vertices[index]|
  }

  /** `add_edge(index, first, second)`: a straight edge between two stored
      vertices of the shape; any index out of range is rejected and changes
      nothing. An edge the kernel cannot build (the two vertices coincide,
      as with equal IDs) throws out of the module: `None`. */
  function AddEdge<S, E>(k: Kernel<S, E>, m: Manager<S, E>, index: Int32, first: Int32, second: Int32): (r: Option<Manager<S, E>>)
    requires Aligned(m)
    ensures r.None? <==>
              EdgeArgsValid(m, index, first, second)
              && k.withSegment(m.shapes[index], m.vertices[index][first], m.vertices[index][second]).None?
    ensures r.Some? && !EdgeArgsValid(m, index, first, second) ==> r.value == m
    ensures r.Some? && EdgeArgsValid(m, index, first, second) ==>
              OnlySlotChanged(m, r.value, index)
              && Some(r.value.shapes[index]) == k.withSegment(m.shapes[index], m.vertices[index][first], m.vertices[index][second])
    ensures r.Some? ==> Aligned(r.value)
    ensures Valid(k, m) && r.Some? ==> Valid(k, r.value)
  {
    if !EdgeArgsValid(m, index, first, second) then Some(m)
    else
      var vs := m.vertices[index];
      match k.withSegment(m.shapes[index], vs[first], vs[second])
      case None => None
      case Some(s) => Some(StoreShape(k, m, s, index))
  }

  /** `add_arc_circle(index, start, middle, end)`: the arc through three
      stored vertices. Nothing is checked first, so a bad index reads outside
      a vector, and a failed arc construction throws out of the module; both
      give `None`. */
  function AddArcCircle<S, E>(k: Kernel<S, E>, m: Manager<S, E>, index: Int32, start: Int32, middle: Int32, end: Int32): (r: Option<Manager<S, E>>)
    requires Aligned(m)
    ensures r.Some? <==>
              0 <= index < |m.shapes|
              && 0 <= start < |m.vertices[index]| && 0 <= middle < |m.vertices[index]| && 0 <= end < |m.vertices[index]|
              && k.withArc(m.shapes[index], m.vertices[index][start], m.vertices[index][middle], m.vertices[index][end]).Some?
    ensures r.Some? ==>
              OnlySlotChanged(m, r.value, index) && Aligned(r.value)
              && r.value.shapes[index] == k.withArc(m.shapes[index], m.vertices[index][start], m.vertices[index][middle], m.vertices[index][end]).value
    ensures Valid(k, m) && r.Some? ==> Valid(k, r.value)
  {
    if !(0 <= index < |m.shapes|) then None
    else
      var vs := m.vertices[index];
      if !(0 <= start < |vs| && 0 <= middle < |vs| && 0 <= end < |vs|) then None
      else
        match k.withArc(m.shapes[index], vs[start], vs[middle], vs[end])
        case None => None
        case Some(c) => Some(StoreShape(k, m, c, index))
  }

  /** The guard of `add_spline`: a shape index, at least two points, and
      every point ID indexing that shape's stored vertices. */
  predicate SplineArgsValid<S, E>(m: Manager<S, E>, index: int, ids: seq<Int32>)
    requires Aligned(m)
  {
    && 0 <= index < |m.shapes|
    && |ids| >= 2
    && forall i :: 0 <= i < |ids| ==> 0 <= ids[i] < |m.vertices[index]|
  }

  /** `add_spline(index, ids)`: a B-spline through the stored vertices, in
      the order given. Bad arguments are rejected before anything is read; a
      fit that fails or throws is caught and leaves the shape as it was. */
  function AddSpline<S, E>(k: Kernel<S, E>, m: Manager<S, E>, index: Int32, ids: seq<Int32>): (r: Manager<S, E>)
    requires Aligned(m)
    ensures !SplineArgsValid(m, index, ids) ==> r == m
    ensures SplineArgsValid(m, index, ids) ==>
              var pts := seq(|ids|, i requires 0 <= i < |ids| => m.vertices[index][ids[i]]);
              match k.withSpline(m.shapes[index], pts)
              case None => r == m
              case Some(c) => OnlySlotChanged(m, r, index) && r.shapes[index] == c
    ensures Aligned(r)
    ensures Valid(k, m) ==> Valid(k, r)
  {
    if !SplineArgsValid(m, index, ids) then m
    else
      var pts := seq(|ids|, i requires 0 <= i < |ids| => m.vertices[index][ids[i]]);
      match k.withSpline(m.shapes[index], pts)
      case None => m
      case Some(c) => StoreShape(k, m, c, index)
  }

  /** The edge IDs `add_surface` keeps: those that index the edge list, in
      their given order and with repeats; the others are reported and
      skipped. */
  function KeptIds(ids: seq<Int32>, count: nat): (r: seq<nat>)
    ensures |r| <= |ids|
    ensures forall j :: 0 <= j < |r| ==> r[j] < count && r[j] in ids
    ensures forall i :: 0 <= i < |ids| && 0 <= ids[i] < count ==> ids[i] in r
    ensures |ids| == 1 ==> r == (if 0 <= ids[0] < count then [ids[0] as nat] else [])
    ensures r == [] <==> forall i :: 0 <= i < |ids| ==> !(0 <= ids[i] < count)
  {
    if |ids| == 0 then []
    else
      var rest := KeptIds(ids[1..], count);
      assert forall i :: 1 <= i < |ids| ==> ids[i] == ids[1..][i - 1];
      if 0 <= ids[0] < count then [ids[0] as nat] + rest else rest
  }

  /** The filter works ID by ID: the IDs kept from a concatenation are those
      kept from each part, in order. With the single-ID case this fixes the
      result: each valid ID contributes itself, each other ID nothing. */
  lemma {:induction false} KeptIdsAppend(ids: seq<Int32>, more: seq<Int32>, count: nat)
    ensures KeptIds(ids + more, count) == KeptIds(ids, count) + KeptIds(more, count)
  {
    if |ids| > 0 {
      assert (ids + more)[1..] == ids[1..] + more;
      KeptIdsAppend(ids[1..], more, count);
    } else {
      assert ids + more == more;
    }
  }

  /** The stored edges `add_surface` collects, in the order of the kept IDs:
      none exactly when no ID indexes the edge list, a single ID gives its
      edge or nothing, and the edges of a concatenation are those of each
      part, in order (`SurfaceEdgesAppend`). */
  function SurfaceEdges<S, E>(m: Manager<S, E>, index: Int32, ids: seq<Int32>): (r: seq<E>)
    requires Aligned(m) && 0 <= index < |m.shapes|
    ensures r == [] <==> forall i :: 0 <= i < |ids| ==> !(0 <= ids[i] < |m.edges[index]|)
    ensures |ids| == 1 ==> r == (if 0 <= ids[0] < |m.edges[index]| then [m.edges[index][ids[0]]] else [])
    ensures forall j :: 0 <= j < |r| ==> r[j] in m.edges[index]
  {
    var kept := KeptIds(ids, |m.edges[index]|);
    seq(|kept|, j requires 0 <= j < |kept| => m.edges[index][kept[j]])
  }

  /** `add_surface` collects edge by edge: the edges collected for a
      concatenation of IDs are those collected for each part, in order. */
  lemma SurfaceEdgesAppend<S, E>(m: Manager<S, E>, index: Int32, ids: seq<Int32>, more: seq<Int32>)
    requires Aligned(m) && 0 <= index < |m.shapes|
    ensures SurfaceEdges(m, index, ids + more) == SurfaceEdges(m, index, ids) + SurfaceEdges(m, index, more)
  {
    KeptIdsAppend(ids, more, |m.edges[index]|);
  }

  /** Some ID passes the `edgeId < 0` test, so the loop of `add_surface`
      goes on to read the shape's edge list. */
  predicate ReadsEdgeList(ids: seq<Int32>) {
    exists i :: 0 <= i < |ids| && ids[i] >= 0
  }

  /** `add_surface(index, ids)`: a face bounded by the stored edges picked by
      the valid IDs. With a bad shape index, the first ID that is not
      negative makes the loop read the edge list of a missing shape, which is
      undefined (`None`); negative IDs are skipped before that read. A wire
      that cannot be built is undefined too, since `Wire()` throws out of the
      module. No valid ID, an open wire or a failed face leaves the shape as
      it was. */
  function AddSurface<S, E>(k: Kernel<S, E>, m: Manager<S, E>, index: Int32, ids: seq<Int32>): (r: Option<Manager<S, E>>)
    requires Aligned(m)
    ensures !(0 <= index < |m.shapes|) ==> (r.None? <==> ReadsEdgeList(ids)) && (r.Some? ==> r.value == m)
    ensures 0 <= index < |m.shapes| ==>
              (r.None? <==> SurfaceEdges(m, index, ids) != [] && !k.wireBuilds(SurfaceEdges(m, index, ids)))
    ensures 0 <= index < |m.shapes| && r.Some? && SurfaceEdges(m, index, ids) == [] ==> r.value == m
    ensures r.Some? && 0 <= index < |m.shapes| && k.withFace(m.shapes[index], SurfaceEdges(m, index, ids)).None? ==> r.value == m
    ensures r.Some? && r.value != m ==>
              0 <= index < |m.shapes| && OnlySlotChanged(m, r.value, index)
              && k.withFace(m.shapes[index], SurfaceEdges(m, index, ids)) == Some(r.value.shapes[index])
    ensures r.Some? ==> Aligned(r.value)
    ensures Valid(k, m) && r.Some? ==> Valid(k, r.value)
  {
    if !(0 <= index < |m.shapes|) then (if ReadsEdgeList(ids) then None else Some(m))
    else
      var es := SurfaceEdges(m, index, ids);
      if es == [] then Some(m)
      else if !k.wireBuilds(es) then None
      else
        match k.withFace(m.shapes[index], es)
        case None => Some(m)
        case Some(f) => Some(StoreShape(k, m, f, index))
  }

  /** `get_shape_count()`: the size of the shape list, narrowed to `int`. */
  function GetShapeCount<S, E>(m: Manager<S, E>): (r: Int32)
    ensures |m.shapes| <= Int32Max ==> r == |m.shapes|
  {
    ToInt32(|m.shapes|)
  }

  /** `get_vertices(index)`: the stored vertices of the shape, no two of them
      within the tolerance. */
  function GetVertices<S, E>(k: Kernel<S, E>, m: Manager<S, E>, index: int): (r: seq<Vec3>)
    requires 0 <= index < |m.vertices|
    ensures Valid(k, m) ==> r == VertexList(k, m.shapes[index])
    ensures Valid(k, m) ==> forall i, j :: 0 <= i < j < |r| ==> !k.nearPoints(r[j], r[i])
  {
    m.vertices[index]
  }

  /** `get_edges(index)`: 32 segments per stored edge that has a curve, each
      segment starting where the previous one of the same edge ended. */
  function GetEdges<S, E>(k: Kernel<S, E>, m: Manager<S, E>, index: int): (r: seq<Vec3>)
    requires 0 <= index < |m.edges|
    ensures |r| == 64 * CurvedCount(k, m.edges[index])
    ensures Chained(r)
  {
    EdgePointsChain(k, m.edges[index]);
    EdgePoints(k, m.edges[index])
  }

  /** `get_faces(index)`: three corners and one face ID per triangle; IDs
      count only the faces that carry a triangulation. */
  function GetFaces<S, E>(k: Kernel<S, E>, m: Manager<S, E>, index: int): (r: (seq<Vec3>, seq<int>))
    requires 0 <= index < |m.shapes|
    ensures |r.0| == 3 * |r.1|
    ensures forall t :: 0 <= t < |r.1| ==> 0 <= r.1[t] < MeshedCount(k.faceMap(m.shapes[index]))
    ensures forall t, u :: 0 <= t < u < |r.1| ==> r.1[t] <= r.1[u]
  {
    FaceTriangles(k.faceMap(m.shapes[index]), 0)
  }

  /** `save_state(name)` on the manager's lists; `None` when the history's
      erase would be undefined. The preview flag is not saved. */
  function SaveState<S, E>(m: Manager<S, E>, name: string): (r: Option<Manager<S, E>>)
    requires H.Parallel(m.history)
    ensures r.Some? ==> r.value == m.(history := r.value.history) && H.Parallel(r.value.history)
    ensures r.Some? ==>
              |r.value.history.shapeStack| > 0
              && H.Snapshot(r.value.history, |r.value.history.shapeStack| - 1) == Live(m)
    ensures r.Some? ==> r.value.history.labels[|r.value.history.labels| - 1] == name
    ensures H.Fits(m.history) ==> (r.None? <==> |m.history.shapeStack| == 0 && m.history.position != -1)
    ensures H.Fits(m.history) && r.Some? ==> r.value.history.position == |r.value.history.shapeStack| - 1
  {
    match H.SaveState(m.history, Live(m), name)
    case None => None
    case Some(h) => Some(m.(history := h))
  }

  /** `load_state(position)`: the history jump, copying the restored lists
      into the manager; the flag is left alone. A jump whose closing print
      of the history overflows an `int` is undefined (`None`). */
  function LoadState<S, E>(m: Manager<S, E>, position: Int32): (r: Option<(Manager<S, E>, bool)>)
    requires H.Parallel(m.history)
    ensures r.None? <==> H.LoadOverflows(m.history, position)
    ensures r.Some? ==> r.value.0.visualizing == m.visualizing && H.Parallel(r.value.0.history)
    ensures r.Some? ==> (r.value.1 <==> position != m.history.position)
    ensures r.Some? && !r.value.1 ==> r.value.0 == m
    ensures r.Some? && r.value.1 ==> r.value.0.history == m.history.(position := position)
    ensures H.Fits(m.history) && r.Some? && r.value.1 && 0 <= position < |m.history.shapeStack| ==>
              Live(r.value.0) == H.Snapshot(m.history, position)
    ensures H.Fits(m.history) && r.Some? && !(r.value.1 && 0 <= position < |m.history.shapeStack|) ==>
              r.value.0.shapes == m.shapes && r.value.0.vertices == m.vertices && r.value.0.edges == m.edges
  {
    if H.LoadOverflows(m.history, position) then None
    else
      var l := H.LoadState(m.history, Live(m), position);
      Some((Manager(l.live.shapes, l.live.vertices, l.live.edges, l.history, m.visualizing), l.changed))
  }

  /** `undo`: one step back when the cursor is above 0; the lists are
      restored only when the new cursor indexes a saved state. */
  function Undo<S, E>(m: Manager<S, E>): (r: Manager<S, E>)
    requires H.Parallel(m.history)
    ensures r.visualizing == m.visualizing && H.Parallel(r.history)
    ensures m.history.position <= 0 ==> r == m
    ensures m.history.position > 0 ==> r.history == m.history.(position := m.history.position - 1)
    ensures m.history.position > 0 && m.history.position - 1 < |m.history.shapeStack| ==>
              Live(r) == H.Snapshot(m.history, m.history.position - 1)
    ensures m.history.position > 0 && m.history.position - 1 >= |m.history.shapeStack| ==> Live(r) == Live(m)
  {
    var l := H.Undo(m.history, Live(m));
    Manager(l.live.shapes, l.live.vertices, l.live.edges, l.history, m.visualizing)
  }

  /** `redo`: one step forward when the cursor, compared unsigned, lies
      below the newest entry; the lists are restored only when the new
      cursor indexes a saved state. */
  function Redo<S, E>(m: Manager<S, E>): (r: Manager<S, E>)
    requires H.Parallel(m.history)
    ensures r.visualizing == m.visualizing && H.Parallel(r.history)
    ensures !H.RedoMoves(m.history) ==> r == m
    ensures H.RedoMoves(m.history) ==> r.history == m.history.(position := ToInt32(m.history.position + 1))
    ensures H.Fits(m.history) && H.RedoMoves(m.history) && 0 <= m.history.position + 1 < |m.history.shapeStack| ==>
              Live(r) == H.Snapshot(m.history, m.history.position + 1)
    ensures H.Fits(m.history) && H.RedoMoves(m.history) && !(0 <= m.history.position + 1 < |m.history.shapeStack|) ==>
              Live(r) == Live(m)
    ensures H.Settled(m.history) && m.history.position == |m.history.shapeStack| - 1 ==> r == m
  {
    var l := H.Redo(m.history, Live(m));
    Manager(l.live.shapes, l.live.vertices, l.live.edges, l.history, m.visualizing)
  }

  /** Saving keeps the lists and the snapshots describing their shapes. */
  lemma SaveKeepsValid<S, E>(k: Kernel<S, E>, m: Manager<S, E>, name: string)
    requires Valid(k, m) && SaveState(m, name).Some?
    ensures Valid(k, SaveState(m, name).value)
  {
    H.SaveKeepsEntries(m.history, Live(m), name);
  }

  /** Saving keeps every snapshot's lists one entry per shape. */
  lemma SaveKeepsAligned<S, E>(m: Manager<S, E>, name: string)
    requires Aligned(m) && SnapshotsAligned(m.history) && SaveState(m, name).Some?
    ensures Aligned(SaveState(m, name).value) && SnapshotsAligned(SaveState(m, name).value.history)
  {
    H.SaveKeepsEntries(m.history, Live(m), name);
  }

  /** Jumping and stepping restore either the live lists or a snapshot, so
      the lists stay one entry per shape. */
  lemma LoadKeepsAligned<S, E>(m: Manager<S, E>, position: Int32)
    requires Aligned(m) && SnapshotsAligned(m.history)
    ensures LoadState(m, position).Some? ==>
              Aligned(LoadState(m, position).value.0) && SnapshotsAligned(LoadState(m, position).value.0.history)
  {
    var h := m.history;
    if h.position != position && ToSizeT(position) < |h.shapeStack| {
      assert H.LoadState(h, Live(m), position).live == H.Snapshot(h, ToSizeT(position));
    }
  }

  lemma UndoKeepsAligned<S, E>(m: Manager<S, E>)
    requires Aligned(m) && SnapshotsAligned(m.history)
    ensures Aligned(Undo(m)) && SnapshotsAligned(Undo(m).history)
  {
    if m.history.position > 0 {
      LoadKeepsAligned(m, m.history.position - 1);
      assert Undo(m) == LoadState(m, m.history.position - 1).value.0;
    }
  }

  lemma RedoKeepsAligned<S, E>(m: Manager<S, E>)
    requires Aligned(m) && SnapshotsAligned(m.history)
    ensures Aligned(Redo(m)) && SnapshotsAligned(Redo(m).history)
  {
    var h := m.history;
    if ToSizeT(h.position) < ToSizeT(|h.shapeStack| - 1) {
      var p := ToInt32(h.position + 1);
      if h.position != p && ToSizeT(p) < |h.shapeStack| {
        assert H.Redo(h, Live(m)).live == H.Snapshot(h, ToSizeT(p));
      }
    }
  }

  /** Jumping and stepping keep the lists describing their shapes: whatever
      they restore is a snapshot that already did. */
  lemma LoadKeepsValid<S, E>(k: Kernel<S, E>, m: Manager<S, E>, position: Int32)
    requires Valid(k, m)
    ensures LoadState(m, position).Some? ==> Valid(k, LoadState(m, position).value.0)
  {
    var h := m.history;
    if h.position != position && ToSizeT(position) < |h.shapeStack| {
      assert H.LoadState(h, Live(m), position).live == H.Snapshot(h, ToSizeT(position));
    }
  }

  lemma UndoKeepsValid<S, E>(k: Kernel<S, E>, m: Manager<S, E>)
    requires Valid(k, m)
    ensures Valid(k, Undo(m))
  {
    if m.history.position > 0 {
      LoadKeepsValid(k, m, m.history.position - 1);
      assert Undo(m) == LoadState(m, m.history.position - 1).value.0;
    }
  }

  lemma RedoKeepsValid<S, E>(k: Kernel<S, E>, m: Manager<S, E>)
    requires Valid(k, m)
    ensures Valid(k, Redo(m))
  {
    var h := m.history;
    if ToSizeT(h.position) < ToSizeT(|h.shapeStack| - 1) {
      var p := ToInt32(h.position + 1);
      if h.position != p && ToSizeT(p) < |h.shapeStack| {
        assert H.Redo(h, Live(m)).live == H.Snapshot(h, ToSizeT(p));
      }
    }
  }

  /** The three navigation facts as implications, for callers that cannot
      branch on validity. */
  lemma LoadKeepsValidIf<S, E>(k: Kernel<S, E>, m: Manager<S, E>, position: Int32)
    ensures Valid(k, m) && LoadState(m, position).Some? ==> Valid(k, LoadState(m, position).value.0)
  {
    if Valid(k, m) {
      LoadKeepsValid(k, m, position);
    }
  }

  lemma UndoKeepsValidIf<S, E>(k: Kernel<S, E>, m: Manager<S, E>)
    ensures Valid(k, m) ==> Valid(k, Undo(m))
  {
    if Valid(k, m) {
      UndoKeepsValid(k, m);
    }
  }

  lemma RedoKeepsValidIf<S, E>(k: Kernel<S, E>, m: Manager<S, E>)
    ensures Valid(k, m) ==> Valid(k, Redo(m))
  {
    if Valid(k, m) {
      RedoKeepsValid(k, m);
    }
  }

  /** The flag is not saved, so an undo while a preview is open brings back
      lists without the scratch shape, and closing the preview then deletes
      the last saved shape instead. */
  lemma {:induction false} UndoDuringPreviewDeletesSavedShape<S, E>(k: Kernel<S, E>, m: Manager<S, E>)
    requires Valid(k, m) && H.Settled(m.history) && m.visualizing && m.history.position > 0
    requires var saved := m.history.shapeStack[m.history.position - 1]; 0 < |saved| <= Int32Max + 1
    ensures var saved := m.history.shapeStack[m.history.position - 1];
            var u := Undo(m);
            u.visualizing && u.shapes == saved
            && EndVisualization(u).shapes == saved[..|saved| - 1] && !EndVisualization(u).visualizing
  {
    var u := Undo(m);
    UndoKeepsValid(k, m);
  }
}
