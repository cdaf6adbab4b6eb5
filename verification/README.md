# A Dafny model of the CAD editor's kernel bookkeeping, view index and selection

The editor is a Godot front end written in C#. It sits over a C++ module, `OCCManager`, that wraps OpenCASCADE. This project models the sequential logic between the two, with the geometry kept opaque:

- **`History`**: the linear undo history of `occmanager.cpp`.
  - Four parallel stacks: shapes, vertices, edges and labels.
  - A cursor, `position_in_stack`.
  - `save_state`, `undo`, `redo` and `load_state`, including the C++ comparisons of an `int` against a `size_t`.
  - The history is generic over the snapshot parts.
- **`OccManager`**: the three per-shape lists and the operations on them.
  - Slot operations: `store_shape` and `delete_shape`.
  - The scratch preview slot: `visualize` and `end_visualization`.
  - The guarded add operations and the queries.
  - The invariant that each stored vertex and edge list describes its shape, for the live lists and for every snapshot.
- **`OccKernel`**: the OpenCASCADE services, as a record of functions over opaque shape and edge types.
  - The duplicate filter of `store_vertices` and `store_edges`.
  - The layouts of `get_edges` (32 chained segments per curved edge) and `get_faces` (three corners and one face ID per triangle).
- **`ElementIndex`**: the per-shape lists of pickable points, segments and triangles that `DrawPoints`, `DrawEdges` and `DrawSurfaces` rebuild.
  - The IDs each record gets.
  - The lazy, grow-only outer lists.
- **`Visualization`**: `VisualizationManager.cs`.
  - `Draw`; the `Add*` operations with their optional save.
  - The segment, point, arc and spline previews.
  - `undo`, `redo` and `LoadSaveState`.
  - Each returns a `Run`:
    - `Done`;
    - `Threw`, with the state at the point a C# exception escaped;
    - `Undefined`, when the C++ side has undefined behaviour.
- **`Selection`**: `SelectionManager.cs`'s three ID lists with their clear-others rules, and the 1000-slot highlight masks they refresh.
- **`Picking`**: the element picking of `SelectionManager.cs`.
  - The first-strict-minimum scans of `findClosestPoint`, `findClosestCurve` and `findClosestSurface`.
  - The min-of-four segment metric.
  - The Möller–Trumbore ray–triangle test, over the reals. It is proved sound (a reported hit lies in the triangle) and complete (every hit beyond the tolerance is reported, with its distance).
- **`PointInputs`, `ArcEntry`, `SegmentEntry`**: the arc and segment entry panels.
  - `optionSelect`, `addTheCurve`, `updatePointInputs` and `closePanel`.
  - Each `OptionButton` is modelled by its item IDs and selected index.

Besides the round trips (undo/redo, preview open/close, select/refresh), the proofs establish behaviour the code has and its comments do not mention:

- An undo while a preview is open makes `end_visualization` delete a saved shape.
- `addTheCurve` saves the arc before ending the preview, so the saved entry keeps the scratch shape.
- A closed preview's records stay pickable.
- A shape without points keeps the next shape's points from being indexed.
- A jump on an empty history makes the next save undefined.

## Model

| member | source | states |
|---|---|---|
| History.Empty | godot/modules/occmanager/occmanager.h:21-29 | a new history has no entries and its cursor is -1 |
| History.SaveState | godot/modules/occmanager/occmanager.cpp:35-52 | the four stacks stay parallel; the newest entry is the live state under the given name, with the cursor on it; a cursor inside the stacks erases every later entry first; an empty history with a cursor other than -1 is undefined |
| History.LoadState | godot/modules/occmanager/occmanager.cpp:70-82 | stacks are never modified; the current position reports no change; any other position becomes the cursor and is reported as a change, restoring that entry only when it indexes the stacks |
| History.Undo | godot/modules/occmanager/occmanager.cpp:55-60 | no change with the cursor at 0 or below; otherwise the cursor steps back one and a change is reported, restoring the entry it reaches when there is one and keeping the live state when the cursor is still past the newest entry |
| History.Redo | godot/modules/occmanager/occmanager.cpp:63-68 | a change exactly when the cursor, compared unsigned, lies below the newest entry; then the cursor steps forward one, restoring the entry it reaches when there is one and keeping the live state otherwise; no change at all in every other case |
| History.UndoStack | godot/modules/occmanager/occmanager.cpp:106-112 | one label per saved entry |
| History.CurrentStatePosition | godot/modules/occmanager/occmanager.cpp:114-116 | a settled cursor is -1 or an index of the label list |
| History.SaveThenRedoIsNoop | godot/modules/occmanager/occmanager.cpp:35-68 | after a save, redo cannot move: the erased branch is unreachable |
| History.SaveThenUndo | godot/modules/occmanager/occmanager.cpp:35-60 | undoing a save returns the cursor to its earlier entry and restores that entry's snapshot |
| History.SaveKeepsEntries | godot/modules/occmanager/occmanager.cpp:37-48 | every entry below the new one was already there, unchanged |
| History.SaveSettles | godot/modules/occmanager/occmanager.cpp:45-50 | a save keeps the cursor on a saved entry |
| History.UndoRedoRoundTrip | godot/modules/occmanager/occmanager.cpp:55-67 | undo then redo restores the history and the current entry's snapshot |
| History.RedoUndoRoundTrip | godot/modules/occmanager/occmanager.cpp:55-67 | redo then undo restores the history and the current entry's snapshot |
| History.NavigationSettles | godot/modules/occmanager/occmanager.cpp:55-82 | undo and redo keep the cursor on a saved entry; a jump does so exactly when the target is the cursor or a saved entry |
| History.JumpOnEmptyThenSaveIsUndefined | godot/modules/occmanager/occmanager.cpp:35-82 | a jump on an empty history is accepted as a change, and the following save erases outside the vectors |
| History.JumpToInt32MaxStillRedoes | godot/modules/occmanager/occmanager.cpp:63-82 | on an empty history a jump to `INT_MAX` is accepted and `redo` still moves, so its increment passes `INT_MAX` (the model wraps to `INT_MIN`) |
| History.StepsNeverOverflowPrint | godot/modules/occmanager/occmanager.cpp:55-103 | on a history that fits an `int`, the jumps `undo` and `redo` make never reach a cursor where the print of `load_state` overflows |
| History.JumpBelowZeroKeepsEveryEntry | godot/modules/occmanager/occmanager.cpp:35-82 | after a jump to a negative position other than -1 and `INT_MIN`, redo cannot move and the next save erases nothing, appending the live state after every entry |
| CInt.ToSizeT | godot/modules/occmanager/occmanager.cpp:37 | the `size_t` conversion: identity on non-negative values, plus 2^64 on negative ones |
| CInt.ToInt32 | godot/modules/occmanager/occmanager.cpp:50 | the narrowing to `int`: identity in range, congruent modulo 2^32 |
| OccManager.InitValid | godot/modules/occmanager/occmanager.h:21-29 | the initial manager is valid, with cursor -1 and no preview |
| OccManager.StoreShape | godot/modules/occmanager/occmanager.cpp:133-159 | a negative index appends one entry to each list; an index past the end changes nothing; any other index replaces only that slot; parallel lists and validity are kept |
| OccManager.DeleteShape | godot/modules/occmanager/occmanager.cpp:118-131 | an index out of range changes nothing; otherwise exactly that slot leaves all three lists and the others shift down |
| OccManager.DeleteKeepsValid | godot/modules/occmanager/occmanager.cpp:118-131 | deletion keeps every list describing its shape |
| OccManager.EndVisualization | godot/modules/occmanager/occmanager.cpp:587-597 | no change without the flag or without shapes; otherwise the last slot is removed and the flag cleared |
| OccManager.EndVisualizationKeepsValid | godot/modules/occmanager/occmanager.cpp:587-597 | closing a preview keeps the manager valid |
| OccManager.Visualize | godot/modules/occmanager/occmanager.cpp:572-585 | the flag is set and the last shape is an empty compound appended after the saved shapes |
| OccManager.VisualizeOpensPreview | godot/modules/occmanager/occmanager.cpp:572-585 | without a preview, exactly one scratch shape is appended after the existing ones |
| OccManager.VisualizeReplacesPreview | godot/modules/occmanager/occmanager.h:83-86 | with a preview open, the old scratch shape is replaced: there is never more than one |
| OccManager.ScratchEditKeepsPreview | godot/modules/occmanager/occmanager.cpp:133-147 | replacing the scratch slot keeps the saved shapes in front of it |
| OccManager.PreviewRoundTrip | godot/modules/occmanager/occmanager.cpp:572-597 | closing a preview opened on a manager gives that manager back |
| OccManager.AddPoint | godot/modules/occmanager/occmanager.cpp:547-569 | a bad shape index changes nothing; otherwise only that slot changes, to the shape with the new vertex |
| OccManager.AddPoints | godot/modules/occmanager/occmanager.cpp:547-569 | one `add_point` per position, in order: only that slot changes, to the shape with every position added as a vertex, and its vertex list is recomputed |
| OccManager.AddEdge | godot/modules/occmanager/occmanager.cpp:599-631 | any index out of range changes nothing; otherwise undefined exactly when the kernel cannot build the segment between the two stored vertices (the edge conversion throws), and only that slot changes, to the shape with the segment |
| OccManager.AddArcCircle | godot/modules/occmanager/occmanager.cpp:633-652 | defined exactly when the three IDs index the stored vertices and the arc can be built; then only that slot changes |
| OccManager.AddSpline | godot/modules/occmanager/occmanager.cpp:654-717 | fewer than two IDs, a bad index or a failed fit change nothing; otherwise only that slot changes, to the spline through the points in order |
| OccManager.KeptIds | godot/modules/occmanager/occmanager.cpp:720-778 | the valid IDs, in their given order with repeats: a single ID is kept exactly when it indexes the edge list; every kept ID is a given one and every valid given one is kept |
| OccManager.KeptIdsAppend | godot/modules/occmanager/occmanager.cpp:722-729 | the filter works ID by ID: the IDs kept from a concatenation are those kept from each part, in order |
| OccManager.SurfaceEdges | godot/modules/occmanager/occmanager.cpp:722-729 | no edge exactly when no ID indexes the edge list; a single ID gives its stored edge when it is in range and nothing otherwise; every edge is a stored edge of the shape |
| OccManager.SurfaceEdgesAppend | godot/modules/occmanager/occmanager.cpp:722-729 | edges are collected ID by ID: those for a concatenation of IDs are those for each part, in order |
| OccManager.AddSurface | godot/modules/occmanager/occmanager.cpp:720-778 | with a bad shape index, undefined exactly when some ID is not negative (the loop then reads a missing edge list), unchanged otherwise; with a good index, undefined exactly when the collected edges are non-empty and do not form a wire (`Wire()` throws out of the module); no collected edge or a face that cannot be built changes nothing; a face built from the collected edges changes only that slot |
| OccManager.GetShapeCount | godot/modules/occmanager/occmanager.cpp:781-783 | the number of shapes, when it fits an `int` |
| OccManager.GetVertices | godot/modules/occmanager/occmanager.cpp:507-515 | in a valid manager, the shape's vertices with no two near each other |
| OccManager.GetEdges | godot/modules/occmanager/occmanager.cpp:519-545 | 64 positions per edge with a curve, each segment starting where the previous one of its edge ended |
| OccManager.GetFaces | godot/modules/occmanager/occmanager.cpp:455-505 | three corners per face ID, IDs non-decreasing and below the number of meshed faces |
| OccManager.SaveState | godot/modules/occmanager/occmanager.cpp:35-52 | only the history changes; the newest entry is the live lists under the name; the preview flag is not saved |
| OccManager.LoadState | godot/modules/occmanager/occmanager.cpp:70-103 | undefined exactly when the closing print of the history overflows an `int` (a jump away from the cursor to `INT_MAX` or `INT_MIN` once a label exists); otherwise the flag is kept, a change exactly when the position differs, and the lists are restored only from an entry the position indexes |
| OccManager.Undo | godot/modules/occmanager/occmanager.cpp:55-60 | as the history's undo, on the manager's lists: no change at cursor 0 or below; otherwise the cursor steps back and the lists are restored from the entry it reaches, or kept when there is none; the preview flag is kept |
| OccManager.Redo | godot/modules/occmanager/occmanager.cpp:63-68 | as the history's redo, on the manager's lists: no change unless the unsigned guard holds; otherwise the cursor steps forward and the lists are restored from the entry it reaches, or kept when there is none; the preview flag is kept |
| OccManager.SaveKeepsValid | godot/modules/occmanager/occmanager.cpp:35-52 | a save keeps every snapshot describing its shapes |
| OccManager.SaveKeepsAligned | godot/modules/occmanager/occmanager.cpp:35-52 | a save keeps every snapshot's lists parallel |
| OccManager.LoadKeepsAligned | godot/modules/occmanager/occmanager.cpp:70-82 | a jump keeps the live lists parallel |
| OccManager.UndoKeepsAligned | godot/modules/occmanager/occmanager.cpp:55-60 | undo keeps the live lists parallel |
| OccManager.RedoKeepsAligned | godot/modules/occmanager/occmanager.cpp:63-68 | redo keeps the live lists parallel |
| OccManager.LoadKeepsValid | godot/modules/occmanager/occmanager.cpp:70-82 | a jump keeps the manager valid |
| OccManager.UndoKeepsValid | godot/modules/occmanager/occmanager.cpp:55-60 | undo keeps the manager valid |
| OccManager.RedoKeepsValid | godot/modules/occmanager/occmanager.cpp:63-68 | redo keeps the manager valid |
| OccManager.UndoDuringPreviewDeletesSavedShape | godot/modules/occmanager/occmanager.cpp:35-60 | the preview flag survives an undo, so ending the preview then deletes the last shape of the restored, saved list |
| OccKernel.Dedup | godot/modules/occmanager/occmanager.cpp:161-214 | kept items come from the input, no kept item is near an earlier kept one, and every input item is kept or near a kept one |
| OccKernel.DedupIsInOrderWalk | godot/modules/occmanager/occmanager.cpp:161-214 | the kept items are the input items at increasing positions, in input order, and a position is kept exactly when its item is near no item kept before it |
| OccKernel.KeptPositionsRule | godot/modules/occmanager/occmanager.cpp:161-214 | the drop rule, position by position: kept exactly when near no earlier kept item |
| OccKernel.SamplePairs | godot/modules/occmanager/occmanager.cpp:523-543 | the inner sampling loop emits pairs of consecutive samples |
| OccKernel.EdgeSamples | godot/modules/occmanager/occmanager.cpp:519-545 | nothing for an edge without a curve; otherwise 64 positions sampled from first to last parameter, reversed for a reversed edge |
| OccKernel.EdgePoints | godot/modules/occmanager/occmanager.cpp:519-545 | 64 positions per curved edge |
| OccKernel.EdgePointsAppend | godot/modules/occmanager/occmanager.cpp:523-543 | edges are sampled one by one: the points of a concatenation of edge lists are those of each list in order, and one edge gives its own samples |
| OccKernel.EdgePointsChain | godot/modules/occmanager/occmanager.cpp:523-543 | each pair starts where the previous pair of the same edge ended |
| OccKernel.Corners | godot/modules/occmanager/occmanager.cpp:455-505 | three corners per triangle, second and third swapped on a reversed face |
| OccKernel.FaceTriangles | godot/modules/occmanager/occmanager.cpp:455-505 | one ID per triangle, three corners per ID, IDs non-decreasing and counting only meshed faces |
| ElementIndex.PointRecords | visualizationmaybe/Scripts/VisualizationManager.cs:184-216 | point `j` is recorded at its position with ID `j` |
| ElementIndex.PairsFrom | visualizationmaybe/Scripts/VisualizationManager.cs:137-157 | the edge-ID counter gives pair `p` the ID `p / 32` |
| ElementIndex.CurveRecords | visualizationmaybe/Scripts/VisualizationManager.cs:123-182 | segment `k` joins positions `2k` and `2k+1` with ID `k / 32` |
| ElementIndex.SurfaceRecords | visualizationmaybe/Scripts/VisualizationManager.cs:218-269 | triangle `k` holds corners `3k` to `3k+2` and face ID `triIDs[k]` |
| ElementIndex.Fill | visualizationmaybe/Scripts/VisualizationManager.cs:195-201 | completes exactly when the shape's list exists or is created; appends at most one outer list per record, never past the shape count; other lists untouched |
| ElementIndex.Refill | visualizationmaybe/Scripts/VisualizationManager.cs:191-201 | after a completed redraw of one shape its list holds exactly its records |
| ElementIndex.RebuildKeepsStale | visualizationmaybe/Scripts/VisualizationManager.cs:104-111 | lists at indices at or past the shape count keep their contents |
| ElementIndex.RebuildCorrect | visualizationmaybe/Scripts/VisualizationManager.cs:104-111 | a completed rebuild leaves each list equal to its shape's records |
| ElementIndex.RebuildCoveredCompletes | visualizationmaybe/Scripts/VisualizationManager.cs:104-111 | with a list for every shape, a rebuild cannot throw |
| ElementIndex.RebuildAfterEmptyShapeThrows | visualizationmaybe/Scripts/VisualizationManager.cs:195-201 | a shape without records creates no list, so the next shape's first record throws |
| Visualization.DrawCount | visualizationmaybe/Scripts/VisualizationManager.cs:104 | the loop bound is the shape count when it fits an `int` |
| Visualization.DrawSplits | visualizationmaybe/Scripts/VisualizationManager.cs:104-111 | the interleaved loop completes exactly when each kind's rebuild does, with their results |
| Visualization.DrawFromKeepsStale | visualizationmaybe/Scripts/VisualizationManager.cs:104-111 | lists past the count survive the loop, completed or not |
| Visualization.Draw | visualizationmaybe/Scripts/VisualizationManager.cs:82-122 | only the index changes; a completed draw shows the kernel; with every list present it completes; stale lists survive |
| Visualization.Commit | visualizationmaybe/Scripts/VisualizationManager.cs:302-309 | without a save nothing changes; a save keeps the live state and records it as the newest entry |
| Visualization.ChangeAndDraw | visualizationmaybe/Scripts/VisualizationManager.cs:340-347 | the change, then the save when asked (undefined exactly when the history save is), then the redraw |
| Visualization.AddSegment | visualizationmaybe/Scripts/VisualizationManager.cs:295-300 | undefined when `add_edge` throws; otherwise the live lists are those of `add_edge`, always saved under "Segment added" |
| Visualization.AddArc | visualizationmaybe/Scripts/VisualizationManager.cs:302-309 | an arc that cannot be built is undefined; otherwise the lists of `add_arc_circle`, saved under "Arc added" only when asked; without a save the kernel is exactly the result of `add_arc_circle` |
| Visualization.AddPoint | visualizationmaybe/Scripts/VisualizationManager.cs:340-347 | the lists of `add_point`, saved under "Point added" only when asked; without a save the kernel is exactly the result of `add_point` and only that slot changes |
| Visualization.AddSpline | visualizationmaybe/Scripts/VisualizationManager.cs:421-429 | the lists of `add_spline`, saved under "Spline added" only when asked; without a save the kernel is exactly the result of `add_spline` |
| Visualization.AddFace | visualizationmaybe/Scripts/VisualizationManager.cs:408-419 | the face plus a dummy vertex over point 0 of shape 0, saved under "Face added"; without that point it throws with the face added and nothing saved |
| Visualization.VisualizeAddSegment | visualizationmaybe/Scripts/VisualizationManager.cs:310-333 | throws on a missing point, drops the preview for equal positions, otherwise spans the two points; nothing else changes |
| Visualization.EndSegmentAddingVisualization | visualizationmaybe/Scripts/VisualizationManager.cs:334-339 | only the segment preview is dropped |
| Visualization.VisualizeAddPoint | visualizationmaybe/Scripts/VisualizationManager.cs:350-364 | only the point preview moves to the position |
| Visualization.EndPointAddingVisualization | visualizationmaybe/Scripts/VisualizationManager.cs:368-373 | only the point preview is dropped |
| Visualization.VisualizeOverClosed | godot/modules/occmanager/occmanager.cpp:572-585 | the new scratch shape sits on the manager with its old preview closed |
| Visualization.VisualizeAddArc | visualizationmaybe/Scripts/VisualizationManager.cs:375-400 | two equal IDs change nothing; a missing point throws with the preview open and empty; when the three points are read, a completed preview is the arc through them as vertices 0, 1, 2 of a new scratch shape, and an arc that cannot be built never completes; the history is untouched |
| Visualization.ArcOnPreview | visualizationmaybe/Scripts/VisualizationManager.cs:381-398 | a missing point throws with nothing changed; only the scratch slot changes |
| Visualization.ArcInSlot | visualizationmaybe/Scripts/VisualizationManager.cs:390-398 | only the scratch slot changes; a completed run is `add_arc_circle(slot, 0, 1, 2)` over the slot with the three vertices added, and once the vertices are added it is undefined exactly when that arc cannot be built |
| Visualization.AddPreviewPoints | visualizationmaybe/Scripts/VisualizationManager.cs:390-395 | only the scratch slot changes; a completed run is one `add_point` per position, in order |
| Visualization.CopySplinePointsReadsShapeZero | visualizationmaybe/Scripts/VisualizationManager.cs:456-462 | each pass of the copy loop edits only the scratch slot, so the next read of `points[0]` still finds shape 0's stored vertex; a completed loop has added exactly those vertices, in the IDs' order |
| Visualization.AddSplinePoints | visualizationmaybe/Scripts/VisualizationManager.cs:431-466 | only the scratch slot changes; when the index shows shape 0 and the slot is not shape 0, a completed run has read shape 0's stored vertices at the IDs and added them in order |
| Visualization.VisualizeAddSpline | visualizationmaybe/Scripts/VisualizationManager.cs:431-466 | fewer than two IDs change nothing; otherwise the kernel is the closed manager plus one scratch shape, the history untouched; when the index shows shape 0 and a saved shape precedes the scratch one, a completed preview is the spline through shape 0's stored vertices at the IDs, fitted over vertex IDs 0 to n-1 of the scratch shape |
| Visualization.SplineOpened | visualizationmaybe/Scripts/VisualizationManager.cs:438-445 | more than one shape ends the preview first; either way the new scratch shape sits on the closed manager |
| Visualization.EndCurveAddingVisualization | visualizationmaybe/Scripts/VisualizationManager.cs:402-406 | without a preview the kernel is unchanged; otherwise the scratch slot is removed and the flag cleared; history untouched |
| Visualization.Undo | visualizationmaybe/Scripts/VisualizationManager.cs:521-525 | as the kernel's undo (a step back when the cursor is above 0, restoring the entry reached when there is one), the flag kept, then a redraw |
| Visualization.Redo | visualizationmaybe/Scripts/VisualizationManager.cs:527-531 | as the kernel's redo (a step forward when the unsigned guard holds, restoring the entry reached when there is one), the flag kept, then a redraw |
| Visualization.LoadSaveState | visualizationmaybe/Scripts/VisualizationManager.cs:533-544 | undefined exactly when the kernel's `load_state` overflows in its print; the current position changes nothing; otherwise the cursor moves, a saved entry is restored, and the scene is redrawn |
| Visualization.ArcPreviewKeepsSavedShapes | visualizationmaybe/Scripts/VisualizationManager.cs:375-400 | after an arc preview the kernel is the closed manager plus one scratch shape |
| Visualization.ArcPreviewRoundTrip | visualizationmaybe/Scripts/VisualizationManager.cs:375-406 | opening then closing an arc preview gives the kernel back |
| Visualization.SplinePreviewRoundTrip | visualizationmaybe/Scripts/VisualizationManager.cs:431-472 | opening then closing a spline preview on a kernel without one gives the kernel back |
| Visualization.ClosedPreviewStaysPickable | visualizationmaybe/Scripts/VisualizationManager.cs:402-406 | after a preview closes, its records stay in the index |
| Visualization.SceneUndoRedoRoundTrip | visualizationmaybe/Scripts/VisualizationManager.cs:521-531 | undo then redo through the scene restores the history and the current entry |
| Selection.Mark | visualizationmaybe/Scripts/VisualizationManager.cs:485-487 | defined exactly when every ID is a slot; the result marks the old slots plus the IDs |
| Selection.Mask | visualizationmaybe/Scripts/VisualizationManager.cs:480-514 | 1000 slots, true exactly at the listed IDs |
| Selection.HighlightElements | visualizationmaybe/Scripts/VisualizationManager.cs:473-477 | completes exactly when all three lists fit the masks, and then every mask shows its list |
| Selection.SelectOneType | visualizationmaybe/SelectionManager.cs:167-193 | empties every list except the kept one (all for none, none for volume) |
| Selection.Extended | visualizationmaybe/SelectionManager.cs:143-149 | with multi-select the ID is appended, duplicates kept; otherwise the list is just the ID |
| Selection.SelectKind | visualizationmaybe/SelectionManager.cs:94-163 | a miss clears all lists; a hit extends its kind's list and empties the other two |
| Selection.SelectPoint | visualizationmaybe/SelectionManager.cs:136-163 | as above for points |
| Selection.SelectCurve | visualizationmaybe/SelectionManager.cs:94-114 | as above for curves, multi-select from the Ctrl key |
| Selection.SelectSurface | visualizationmaybe/SelectionManager.cs:116-134 | as above for surfaces, multi-select from the Ctrl key |
| Selection.SelectPointIdempotent | visualizationmaybe/SelectionManager.cs:136-163 | selecting the same point twice without multi-select is selecting it once |
| Selection.MultiSelectKeepsDuplicates | visualizationmaybe/SelectionManager.cs:143-149 | with multi-select a repeated pick is kept twice |
| Picking.ScanClosest | visualizationmaybe/SelectionManager.cs:208-243 | a miss exactly when nothing scores below the float maximum; otherwise the first element with the least score |
| Picking.ClosestWithin | visualizationmaybe/SelectionManager.cs:235-241 | a miss exactly when nothing scores within the margin (inclusive); otherwise the first minimum's shape and ID |
| Picking.FindClosestPoint | visualizationmaybe/SelectionManager.cs:208-243 | the first point nearest the ray, if within the margin |
| Picking.SegmentDistance | visualizationmaybe/SelectionManager.cs:245-270 | at most each of the four point-to-line distances and equal to one of them or the float maximum |
| Picking.FindClosestCurve | visualizationmaybe/SelectionManager.cs:275-308 | the first segment nearest the ray, if within the margin, reported with its curve's ID |
| Picking.RayTriangleIntersect | visualizationmaybe/SelectionManager.cs:346-372 | a hit reports a distance beyond the tolerance; a miss reports 0 |
| Picking.HitLiesInTriangle | visualizationmaybe/SelectionManager.cs:346-372 | every reported hit is a point of the triangle at the reported distance |
| Picking.TriangleHitIsReported | visualizationmaybe/SelectionManager.cs:346-372 | every intersection beyond the tolerance, on a ray not near parallel, is reported with its distance |
| Picking.CramerSolves | visualizationmaybe/SelectionManager.cs:352-366 | the source's `u`, `v`, `t` solve the ray–plane system |
| Picking.FindClosestSurface | visualizationmaybe/SelectionManager.cs:314-344 | a miss exactly when no triangle is hit, whatever the margin; otherwise the first triangle with the nearest hit |
| PointInputs.SelectedId | visualizationmaybe/AddArcEntry.cs:129-131 | the selected item's ID, or -1 with nothing selected |
| PointInputs.Select | visualizationmaybe/AddArcEntry.cs:85-96 | -1 clears the choice, an index in range selects it, any other index is ignored |
| PointInputs.Wanted | visualizationmaybe/AddArcEntry.cs:108-127 | the IDs up to the first -1, none of them -1 |
| PointInputs.SelectFrom | visualizationmaybe/AddArcEntry.cs:113-126 | completes exactly when the wanted IDs fit the mask, then selects exactly them; a throw leaves a non-empty prefix of them |
| PointInputs.SelectInputs | visualizationmaybe/AddArcEntry.cs:108-127 | the selection is cleared, then exactly the wanted points are selected |
| PointInputs.CopyInto | visualizationmaybe/AddArcEntry.cs:85-96 | input `k` selects point `k` for each selected point, the rest keep their choice |
| PointInputs.CopiedPointIsShown | visualizationmaybe/AddArcEntry.cs:55-64 | when IDs are indices, a copied point is the ID the input then shows |
| PointInputs.SelectThenCopyIsIdentity | visualizationmaybe/AddArcEntry.cs:85-127 | selecting from the inputs and copying back leaves them unchanged |
| PointInputs.CopyThenSelectRoundTrip | visualizationmaybe/AddArcEntry.cs:85-127 | copying a full selection into the inputs and selecting gives it back |
| ArcEntry.WantedOfThree | visualizationmaybe/AddArcEntry.cs:108-127 | the early returns select `[]`, `[a]`, `[a, b]` or `[a, b, c]` |
| ArcEntry.OptionSelect | visualizationmaybe/AddArcEntry.cs:108-127 | the selection becomes the prefix of the three IDs before the first -1, duplicates included; for a panel that is not listening nothing else changes |
| ArcEntry.CommitArc | visualizationmaybe/AddArcEntry.cs:137-139 | the arc is saved as the newest entry under "Arc added" before the preview ends |
| ArcEntry.AddTheCurve | visualizationmaybe/AddArcEntry.cs:128-143 | two equal IDs change nothing; otherwise the arc on shape 0 is committed with a save, the panel and the selection kept |
| ArcEntry.CommitSavesScratchShape | visualizationmaybe/AddArcEntry.cs:137-139 | with a preview open, the saved entry holds one more shape than the live list: the scratch shape |
| ArcEntry.UpdatePointInputs | visualizationmaybe/AddArcEntry.cs:85-96 | the three inputs take the first three selected points |
| ArcEntry.SelectThenRefreshIsIdentity | visualizationmaybe/AddArcEntry.cs:85-127 | refreshing after `optionSelect` changes no input |
| ArcEntry.RefreshThenSelectRoundTrip | visualizationmaybe/AddArcEntry.cs:85-127 | three selected points survive a refresh and a reselect |
| ArcEntry.ClosePanel | visualizationmaybe/AddArcEntry.cs:26-35 | a hidden panel is left alone; otherwise it is hidden, the selection cleared when asked, and the arc preview ended |
| ArcEntry.CloseIsIdempotent | visualizationmaybe/AddArcEntry.cs:26-35 | closing twice is closing once |
| SegmentEntry.WantedOfTwo | visualizationmaybe/AddSegmentEntry.cs:106-123 | the nested tests select `[]`, `[a]` or `[a, b]` |
| SegmentEntry.OptionSelect | visualizationmaybe/AddSegmentEntry.cs:106-123 | the selection becomes `[]`, `[first]` or `[first, second]`; for a panel that is not listening nothing else changes |
| SegmentEntry.CommitSegment | visualizationmaybe/AddSegmentEntry.cs:133-135 | undefined when `add_edge` throws; otherwise the segment is saved under "Segment added"; the preview is dropped only when the add completed |
| SegmentEntry.AddTheCurve | visualizationmaybe/AddSegmentEntry.cs:125-139 | equal IDs change nothing; otherwise an edge that cannot be built is undefined, and the segment on shape 0 is committed and the preview dropped |
| SegmentEntry.UnusableIdsStillSave | visualizationmaybe/AddSegmentEntry.cs:125-139 | IDs that name no stored points leave the shapes alone and still push a "Segment added" entry |
| SegmentEntry.UpdatePointInputs | visualizationmaybe/AddSegmentEntry.cs:84-92 | the two inputs take the first two selected points |
| SegmentEntry.SelectThenRefreshIsIdentity | visualizationmaybe/AddSegmentEntry.cs:84-123 | refreshing after `optionSelect` changes no input |
| SegmentEntry.RefreshThenSelectRoundTrip | visualizationmaybe/AddSegmentEntry.cs:84-123 | two selected points survive a refresh and a reselect |
| SegmentEntry.ClosePanel | visualizationmaybe/AddSegmentEntry.cs:23-32 | a hidden panel is left alone; otherwise it is hidden, the selection cleared when asked, the segment preview dropped, and the kernel untouched |
| SegmentEntry.CloseIsIdempotent | visualizationmaybe/AddSegmentEntry.cs:23-32 | closing twice is closing once |

## Code versus documentation

- `load_state` (`occmanager.h:95-97`) is documented to return true only when the state changes. The code (`occmanager.cpp:74-81`) also returns true for a position outside the stacks: it moves the cursor there and restores nothing. The model follows the code; `History.LoadState` states the out-of-range case and `History.JumpOnEmptyThenSaveIsUndefined` shows where it leads.
- `add_arc_circle` is declared with parameters `(start, end, center)` but defined as `(start, center, end)`. The model follows the definition, which the callers match.

## Left out

- OpenCASCADE itself (STEP import, meshing, arc, spline and face construction, triangulation traversal): shapes and edges are opaque types, and every kernel result is a field of `OccKernel.Kernel`.
- `import_step`, `mesh_shape`, `get_visual_vertices`, `get_visual_indices`: kernel calls with no bookkeeping of their own.
- `print_undo_stack` and every `print`/`GD.Print`: the printed text is not modelled. The one effect of `print_undo_stack` beyond output, a signed overflow in its loop for a cursor at `INT_MAX` or `INT_MIN`, is modelled as History.LoadOverflows.
- History.LoadState: returns the jump for every cursor, including the two where the closing print of `load_state` overflows; it models the assignments, and OccManager.LoadState and Visualization.LoadSaveState are undefined on those jumps (History.LoadOverflows).
- Floating-point rounding: vectors are over the reals. The tolerance tests of `store_vertices` and `store_edges` are the kernel predicates `nearPoints` and `sameEdge`.
- The point-to-line distance (a square root) and the camera ray (`ProjectRayOrigin`, `ProjectRayNormal`): the distance is the parameter `lineDistance`; the ray origin and direction are parameters.
- Rendering: meshes, materials, shader uploads, `DrawMesh`, `MultiSelectHighlighting`, visibility toggles. A mask is modelled by its contents, a preview object by what it shows.
- Signals and UI wiring: the `PointSelected` signal and the handlers subscribed to it, `openPanel`, `setOptionButtonItems`, `_UnhandledInput`, `UndoRedoGraphic`, and the other entry panels.
  - The panel's `listening` flag records the subscription.
  - `closePanel` of the arc panel is modelled; the calls other panels make to it are not.
- ArcEntry.OptionSelect: each point selection emits `PointSelected`, which on a listening panel refreshes the inputs and redraws the preview. That handler is not run, so nothing is promised about the scene and the panel of a listening panel.
- SegmentEntry.OptionSelect: the same holds for the segment panel.
- Godot's `OptionButton`: modelled from its documented behaviour. `GetSelectedId` returns the selected item's ID or -1. `Select` takes an index, clears on -1 and ignores an index out of range. `Select` does not emit `ItemSelected`.
- PointInputs.SelectThenCopyIsIdentity: assumes the item IDs equal their indices, which holds when the inputs list the points of one shape, as the panels fill them; with several shapes the IDs repeat and the round trip is not claimed.
- Visualization.EndCurveAddingVisualization: `EndArcAddingVisualization` and `EndSplineAddingVisualization` have the same body, so one function models both.
- Picking.FindClosestSurface: takes the margin argument and ignores it, as the source does.
- ElementIndex.Rebuild: carries only definedness; what a rebuild achieves is stated by ElementIndex.RebuildCorrect, ElementIndex.RebuildKeepsStale and ElementIndex.RebuildCoveredCompletes.
- Visualization.AddSplinePoints and Visualization.VisualizeAddSpline: what the preview shows is stated only when the index shows shape 0 and a saved shape precedes the scratch one. Otherwise each read sees whatever list the last redraw left, and with one shape the scratch shape is shape 0 itself.
- Visualization.VisualizeAddArc: a missing point is stated to throw and a completed preview to be the arc; a preview whose redraw throws part way is stated only to keep the saved shapes and the history.
- OccManager.Redo: inherits the wrap-around at cursor `INT_MAX` of History.Redo.
- Visualization.Redo: inherits the wrap-around at cursor `INT_MAX` of History.Redo.
- History.Redo: at cursor `INT_MAX` the C++ `position_in_stack + 1` is a signed overflow, which is undefined behaviour; the model wraps it to `INT_MIN` instead. The case is reachable: on an empty history `load_state(INT_MAX)` is accepted and the unsigned guard of `redo` still holds (History.JumpToInt32MaxStillRedoes).
- Integer widths on the C# side: IDs and indices there are unbounded integers. The C++ `int` and `size_t` conversions that matter to the history are written out in `CInt`.
