/** The segment entry panel (`AddSegmentEntry.cs`): two point inputs (first,
    second), the selection they drive, the commit of the segment and the
    closing of the panel. */
module SegmentEntry {
  import opened Outcomes
  import opened CInt
  import opened OccKernel
  import opened PointInputs
  import Sel = Selection
  import V = Visualization
  import O = OccManager
  import H = History

  /** The panel: shown or hidden, subscribed to `PointSelected` or not, and
      its two inputs. */
  datatype SegmentPanel = SegmentPanel(visible: bool, listening: bool, first: Input, second: Input)

  function Inputs(p: SegmentPanel): seq<Input> {
    [p.first, p.second]
  }

  /** The points `optionSelect` selects for the IDs `a`, `b`. */
  function Chosen(a: int, b: int): seq<int> {
    if a == -1 then [] else if b == -1 then [a] else [a, b]
  }

  lemma WantedOfTwo(a: int, b: int)
    ensures Wanted([a, b]) == Chosen(a, b)
  {
    assert [a, b][1..] == [b] && [b][1..] == [];
    assert Wanted([b]) == (if b == -1 then [] else [b]);
  }

  /** `optionSelect`: clear the selection, then select the first input's
      point and add the second's, stopping at the first input that shows
      nothing. The `PointSelected` handlers of a listening panel are not
      modelled: the scene and the panel are promised unchanged only for a
      panel that is not listening. */
  function OptionSelect<S, E>(ed: Editor<S, E, SegmentPanel>): (r: Run<Editor<S, E, SegmentPanel>>)
    ensures r.Defined()
    ensures !ed.panel.listening ==> r.state.scene == ed.scene && r.state.panel == ed.panel
    ensures r.state.selection.curves == [] && r.state.selection.surfaces == []
    ensures var want := Chosen(SelectedId(ed.panel.first), SelectedId(ed.panel.second));
            && (r.Done? <==> Sel.InMask(want))
            && (r.Done? ==> r.state.selection.points == want && Sel.Highlighted(r.state.selection))
            && (r.Threw? ==>
                  0 < |r.state.selection.points| <= |want|
                  && r.state.selection.points == want[..|r.state.selection.points|])
  {
    var ids := SelectedIds(Inputs(ed.panel));
    assert ids == [SelectedId(ed.panel.first), SelectedId(ed.panel.second)];
    WantedOfTwo(ids[0], ids[1]);
    WithSelection(ed, SelectInputs(ed.selection, ids))
  }

  /** The two calls `addTheCurve` makes on distinct IDs: `AddSegment` on
      shape 0, then, if it completed, the end of the segment preview. */
  function CommitSegment<S, E>(k: Kernel<S, E>, ed: Editor<S, E, SegmentPanel>, a: Int32, b: Int32): (r: Run<Editor<S, E, SegmentPanel>>)
    requires V.WellFormed(ed.scene)
    ensures O.AddEdge(k, ed.scene.occ, 0, a, b).None? ==> r.Undefined?
    ensures H.Fits(ed.scene.occ.history) ==>
              (r.Undefined? <==>
                 O.AddEdge(k, ed.scene.occ, 0, a, b).None?
                 || (|ed.scene.occ.history.shapeStack| == 0 && ed.scene.occ.history.position != -1))
    ensures r.Defined() ==>
              && V.WellFormed(r.state.scene) && r.state.selection == ed.selection && r.state.panel == ed.panel
              && O.Live(r.state.scene.occ) == O.Live(O.AddEdge(k, ed.scene.occ, 0, a, b).value)
    ensures H.Fits(ed.scene.occ.history) && r.Defined() ==> V.Committed(r.state.scene.occ, "Segment added")
    ensures r.Done? ==> r.state.scene.segmentPreview.None? && V.Shows(k, r.state.scene)
    ensures r.Threw? ==> r.state.scene.segmentPreview == ed.scene.segmentPreview
    ensures O.Valid(k, ed.scene.occ) && r.Defined() ==> O.Valid(k, r.state.scene.occ)
  {
    var added := V.AddSegment(k, ed.scene, 0, a, b);
    if added.Done? then Done(ed.(scene := V.EndSegmentAddingVisualization(added.state)))
    else WithScene(ed, added)
  }

  /** `addTheCurve`: with equal IDs nothing happens; otherwise the segment is
      added to shape 0 with a save, and only then is the segment preview
      dropped. */
  function AddTheCurve<S, E>(k: Kernel<S, E>, ed: Editor<S, E, SegmentPanel>): (r: Run<Editor<S, E, SegmentPanel>>)
    requires V.WellFormed(ed.scene)
    ensures var (a, b) := (SelectedId(ed.panel.first), SelectedId(ed.panel.second));
            && (a == b ==> r == Done(ed))
            && (a != b ==>
                  && (O.AddEdge(k, ed.scene.occ, 0, a, b).None? ==> r.Undefined?)
                  && (r.Defined() ==>
                        && V.WellFormed(r.state.scene) && r.state.selection == ed.selection && r.state.panel == ed.panel
                        && O.Live(r.state.scene.occ) == O.Live(O.AddEdge(k, ed.scene.occ, 0, a, b).value))
                  && (H.Fits(ed.scene.occ.history) && r.Defined() ==> V.Committed(r.state.scene.occ, "Segment added"))
                  && (r.Done? ==> r.state.scene.segmentPreview.None? && V.Shows(k, r.state.scene))
                  && (r.Threw? ==> r.state.scene.segmentPreview == ed.scene.segmentPreview)
                  && (O.Valid(k, ed.scene.occ) && r.Defined() ==> O.Valid(k, r.state.scene.occ)))
  {
    var (a, b) := (SelectedId(ed.panel.first), SelectedId(ed.panel.second));
    if a == b then Done(ed) else CommitSegment(k, ed, a, b)
  }

  /** The segment is saved whatever the IDs: when they do not name two
      stored points of shape 0, the kernel leaves the shapes alone, yet a new
      history entry labelled "Segment added" holds the unchanged shapes. */
  lemma UnusableIdsStillSave<S, E>(k: Kernel<S, E>, ed: Editor<S, E, SegmentPanel>)
    requires V.WellFormed(ed.scene) && H.Fits(ed.scene.occ.history)
    requires SelectedId(ed.panel.first) != SelectedId(ed.panel.second)
    requires !O.EdgeArgsValid(ed.scene.occ, 0, SelectedId(ed.panel.first), SelectedId(ed.panel.second))
    requires AddTheCurve(k, ed).Defined()
    ensures var m := AddTheCurve(k, ed).state.scene.occ;
            var h := m.history;
            && O.Live(m) == O.Live(ed.scene.occ)
            && h.labels[h.position] == "Segment added" && H.Snapshot(h, h.position) == O.Live(ed.scene.occ)
  {
  }

  /** `updatePointInputs`: input `k` takes the `k`-th selected point, for as
      many inputs as there are selected points; the rest keep their
      choice. */
  function UpdatePointInputs(p: SegmentPanel, points: seq<int>): (r: SegmentPanel)
    ensures r.visible == p.visible && r.listening == p.listening
    ensures Inputs(r) == CopyInto(Inputs(p), points)
  {
    var c := CopyInto(Inputs(p), points);
    p.(first := c[0], second := c[1])
  }

  /** After `optionSelect`, refreshing the inputs from the selection changes
      nothing, when every input lists IDs by index. */
  lemma SelectThenRefreshIsIdentity<S, E>(ed: Editor<S, E, SegmentPanel>)
    requires forall k :: 0 <= k < 2 ==> IdsAreIndices(Inputs(ed.panel)[k])
    requires OptionSelect(ed).Done?
    ensures UpdatePointInputs(ed.panel, OptionSelect(ed).state.selection.points) == ed.panel
  {
    SelectThenCopyIsIdentity(ed.selection, Inputs(ed.panel));
    var r := UpdatePointInputs(ed.panel, OptionSelect(ed).state.selection.points);
    assert Inputs(r) == Inputs(ed.panel);
  }

  /** Refreshing the inputs from two selected points, then selecting from the
      inputs, gives back those two points. */
  lemma RefreshThenSelectRoundTrip<S, E>(ed: Editor<S, E, SegmentPanel>, points: seq<int>)
    requires |points| == 2 && Sel.InMask(points)
    requires forall k :: 0 <= k < 2 ==> IdsAreIndices(Inputs(ed.panel)[k]) && 0 <= points[k] < |Inputs(ed.panel)[k].items|
    ensures var r := OptionSelect(ed.(panel := UpdatePointInputs(ed.panel, points)));
            r.Done? && r.state.selection.points == points
  {
    CopyThenSelectRoundTrip(ed.selection, Inputs(ed.panel), points);
  }

  /** `closePanel(clearSelection)`: on a shown panel, hide it, stop
      listening to point selections, clear the selection if asked, and drop
      the segment preview; a hidden panel is left alone. The kernel is not
      touched. */
  function ClosePanel<S, E>(ed: Editor<S, E, SegmentPanel>, clearSelection: bool): (r: Run<Editor<S, E, SegmentPanel>>)
    ensures r.Done?
    ensures !ed.panel.visible ==> r.state == ed
    ensures ed.panel.visible ==>
              && r.state.panel == ed.panel.(visible := false, listening := false)
              && r.state.scene.segmentPreview.None?
              && r.state.scene == ed.scene.(segmentPreview := None)
              && (clearSelection ==>
                    r.state.selection.points == [] && r.state.selection.curves == [] && r.state.selection.surfaces == [])
              && (!clearSelection ==> r.state.selection == ed.selection)
  {
    if !ed.panel.visible then Done(ed)
    else
      var cleared := if clearSelection then Sel.SelectOneType(ed.selection, Sel.NoElement) else Done(ed.selection);
      // with every list emptied, the highlight refresh cannot throw
      assert cleared.Done?;
      Done(Editor(V.EndSegmentAddingVisualization(ed.scene), cleared.state, ed.panel.(visible := false, listening := false)))
  }

  /** Closing twice is closing once. */
  lemma CloseIsIdempotent<S, E>(ed: Editor<S, E, SegmentPanel>, clearSelection: bool, again: bool)
    ensures var once := ClosePanel(ed, clearSelection);
            ClosePanel(once.state, again) == once
  {
  }
}
