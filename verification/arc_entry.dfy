/** The arc entry panel (`AddArcEntry.cs`): three point inputs (first,
    center, second), the selection they drive, the commit of the arc and
    the closing of the panel. */
module ArcEntry {
  import opened Outcomes
  import opened CInt
  import opened OccKernel
  import opened PointInputs
  import Sel = Selection
  import V = Visualization
  import O = OccManager
  import H = History

  /** The panel: shown or hidden, subscribed to `PointSelected` or not, and
      its three inputs. */
  datatype ArcPanel = ArcPanel(visible: bool, listening: bool, first: Input, center: Input, second: Input)

  function Inputs(p: ArcPanel): seq<Input> {
    [p.first, p.center, p.second]
  }

  /** The three IDs the inputs show. */
  function Ids(p: ArcPanel): (r: seq<Int32>)
    ensures r == [SelectedId(p.first), SelectedId(p.center), SelectedId(p.second)]
  {
    SelectedIds(Inputs(p))
  }

  /** The points `optionSelect` selects for the IDs `a`, `b`, `c`. */
  function Chosen(a: int, b: int, c: int): seq<int> {
    if a == -1 then [] else if b == -1 then [a] else if c == -1 then [a, b] else [a, b, c]
  }

  lemma WantedOfThree(a: int, b: int, c: int)
    ensures Wanted([a, b, c]) == Chosen(a, b, c)
  {
    assert [a, b, c][1..] == [b, c] && [b, c][1..] == [c] && [c][1..] == [];
    assert Wanted([c]) == (if c == -1 then [] else [c]);
    assert Wanted([b, c]) == (if b == -1 then [] else [b] + Wanted([c]));
  }

  /** `optionSelect`: clear the selection, then select the first input's
      point, then add the center's and the second's, stopping at the first
      input that shows nothing. Repeated IDs are selected again. The
      `PointSelected` handlers of a listening panel are not modelled: the
      scene and the panel are promised unchanged only for a panel that is
      not listening. */
  function OptionSelect<S, E>(ed: Editor<S, E, ArcPanel>): (r: Run<Editor<S, E, ArcPanel>>)
    ensures r.Defined()
    ensures !ed.panel.listening ==> r.state.scene == ed.scene && r.state.panel == ed.panel
    ensures r.state.selection.curves == [] && r.state.selection.surfaces == []
    ensures var want := Chosen(SelectedId(ed.panel.first), SelectedId(ed.panel.center), SelectedId(ed.panel.second));
            && (r.Done? <==> Sel.InMask(want))
            && (r.Done? ==> r.state.selection.points == want && Sel.Highlighted(r.state.selection))
            && (r.Threw? ==>
                  0 < |r.state.selection.points| <= |want|
                  && r.state.selection.points == want[..|r.state.selection.points|])
  {
    var ids := Ids(ed.panel);
    WantedOfThree(ids[0], ids[1], ids[2]);
    WithSelection(ed, SelectInputs(ed.selection, ids))
  }

  /** The kernel state `u` holds the arc through points `a`, `b`, `c` of
      shape 0 of `m`, saved as the newest history entry, labelled "Arc
      added", with the cursor on it. */
  ghost predicate ArcSaved<S, E>(k: Kernel<S, E>, m: O.Manager<S, E>, u: O.Manager<S, E>, a: Int32, b: Int32, c: Int32)
    requires O.Aligned(m)
  {
    && O.AddArcCircle(k, m, 0, a, b, c).Some?
    && var h := u.history;
       && H.Parallel(h) && 0 <= h.position == |h.shapeStack| - 1
       && h.labels[h.position] == "Arc added"
       && H.Snapshot(h, h.position) == O.Live(O.AddArcCircle(k, m, 0, a, b, c).value)
  }

  /** The two calls `addTheCurve` makes on distinct IDs: `AddArc` on shape 0
      with a save, then, if it completed, the end of the arc preview. */
  function CommitArc<S, E>(k: Kernel<S, E>, ed: Editor<S, E, ArcPanel>, a: Int32, b: Int32, c: Int32): (r: Run<Editor<S, E, ArcPanel>>)
    requires V.WellFormed(ed.scene)
    ensures r.Defined() ==> V.WellFormed(r.state.scene) && r.state.selection == ed.selection && r.state.panel == ed.panel
    ensures O.AddArcCircle(k, ed.scene.occ, 0, a, b, c).None? ==> r.Undefined?
    ensures H.Fits(ed.scene.occ.history) && r.Completed() ==> ArcSaved(k, ed.scene.occ, r.state.scene.occ, a, b, c)
    ensures O.Valid(k, ed.scene.occ) && r.Defined() ==> O.Valid(k, r.state.scene.occ)
    ensures r.Done? ==> V.Shows(k, r.state.scene)
  {
    var added := V.AddArc(k, ed.scene, 0, a, b, c, true);
    if added.Done? then WithScene(ed, V.EndCurveAddingVisualization(k, added.state))
    else WithScene(ed, added)
  }

  /** Two of the three IDs are equal. */
  predicate Repeats(a: int, b: int, c: int) {
    a == b || b == c || a == c
  }

  /** `addTheCurve`: with two equal IDs nothing happens; otherwise the arc is
      added to shape 0 with a save, and only then is the arc preview ended. */
  function AddTheCurve<S, E>(k: Kernel<S, E>, ed: Editor<S, E, ArcPanel>): (r: Run<Editor<S, E, ArcPanel>>)
    requires V.WellFormed(ed.scene)
    ensures var (a, b, c) := (SelectedId(ed.panel.first), SelectedId(ed.panel.center), SelectedId(ed.panel.second));
            && (Repeats(a, b, c) ==> r == Done(ed))
            && (!Repeats(a, b, c) ==>
                  && (r.Defined() ==> V.WellFormed(r.state.scene) && r.state.selection == ed.selection && r.state.panel == ed.panel)
                  && (O.AddArcCircle(k, ed.scene.occ, 0, a, b, c).None? ==> r.Undefined?)
                  && (H.Fits(ed.scene.occ.history) && r.Completed() ==> ArcSaved(k, ed.scene.occ, r.state.scene.occ, a, b, c))
                  && (O.Valid(k, ed.scene.occ) && r.Defined() ==> O.Valid(k, r.state.scene.occ))
                  && (r.Done? ==> V.Shows(k, r.state.scene)))
  {
    var (a, b, c) := (SelectedId(ed.panel.first), SelectedId(ed.panel.center), SelectedId(ed.panel.second));
    if Repeats(a, b, c) then Done(ed) else CommitArc(k, ed, a, b, c)
  }

  /** The save comes before the preview is ended, so when a preview is open
      the saved entry still holds the scratch shape: the live shapes after
      the commit are the saved ones without their last. */
  lemma {:induction false} CommitSavesScratchShape<S, E>(k: Kernel<S, E>, ed: Editor<S, E, ArcPanel>, a: Int32, b: Int32, c: Int32)
    requires V.WellFormed(ed.scene) && ed.scene.occ.visualizing
    requires H.Fits(ed.scene.occ.history) && |ed.scene.occ.shapes| <= Int32Max
    requires CommitArc(k, ed, a, b, c).Completed()
    ensures var m := CommitArc(k, ed, a, b, c).state.scene.occ;
            var h := m.history;
            && !m.visualizing && H.Parallel(h) && 0 <= h.position < |h.shapeStack|
            && |h.shapeStack[h.position]| == |m.shapes| + 1
            && m.shapes == h.shapeStack[h.position][..|m.shapes|]
  {
    var added := V.AddArc(k, ed.scene, 0, a, b, c, true);
    var u := added.state.occ;
    assert added.Done? && u.visualizing;
    assert V.Committed(u, "Arc added");
    assert |u.shapes| == |ed.scene.occ.shapes|;
    var end := V.EndCurveAddingVisualization(k, added.state);
    var gone := O.DeleteShape(u, ToInt32(|u.shapes| - 1));
    assert O.Live(end.state.occ) == O.Live(gone);
    var h := u.history;
    assert end.state.occ.history == h;
    assert H.Snapshot(h, h.position).shapes == u.shapes;
    assert gone.shapes == u.shapes[..|u.shapes| - 1];
  }

  /** `updatePointInputs`: input `k` takes the `k`-th selected point, for as
      many inputs as there are selected points; the rest keep their
      choice. */
  function UpdatePointInputs(p: ArcPanel, points: seq<int>): (r: ArcPanel)
    ensures r.visible == p.visible && r.listening == p.listening
    ensures Inputs(r) == CopyInto(Inputs(p), points)
  {
    var c := CopyInto(Inputs(p), points);
    p.(first := c[0], center := c[1], second := c[2])
  }

  /** After `optionSelect`, refreshing the inputs from the selection changes
      nothing, when every input lists IDs by index. */
  lemma SelectThenRefreshIsIdentity<S, E>(ed: Editor<S, E, ArcPanel>)
    requires forall k :: 0 <= k < 3 ==> IdsAreIndices(Inputs(ed.panel)[k])
    requires OptionSelect(ed).Done?
    ensures UpdatePointInputs(ed.panel, OptionSelect(ed).state.selection.points) == ed.panel
  {
    SelectThenCopyIsIdentity(ed.selection, Inputs(ed.panel));
    var r := UpdatePointInputs(ed.panel, OptionSelect(ed).state.selection.points);
    assert Inputs(r) == Inputs(ed.panel);
  }

  /** Refreshing the inputs from three selected points, then selecting from
      the inputs, gives back those three points. */
  lemma RefreshThenSelectRoundTrip<S, E>(ed: Editor<S, E, ArcPanel>, points: seq<int>)
    requires |points| == 3 && Sel.InMask(points)
    requires forall k :: 0 <= k < 3 ==> IdsAreIndices(Inputs(ed.panel)[k]) && 0 <= points[k] < |Inputs(ed.panel)[k].items|
    ensures var r := OptionSelect(ed.(panel := UpdatePointInputs(ed.panel, points)));
            r.Done? && r.state.selection.points == points
  {
    CopyThenSelectRoundTrip(ed.selection, Inputs(ed.panel), points);
  }

  /** `closePanel(clearSelection)`: on a shown panel, hide it, stop
      listening to point selections, clear the selection if asked, and end
      the arc preview; a hidden panel is left alone. */
  function ClosePanel<S, E>(k: Kernel<S, E>, ed: Editor<S, E, ArcPanel>, clearSelection: bool): (r: Run<Editor<S, E, ArcPanel>>)
    requires V.WellFormed(ed.scene)
    ensures !ed.panel.visible ==> r == Done(ed)
    ensures ed.panel.visible ==>
              && r.Defined() && V.WellFormed(r.state.scene)
              && r.state.panel == ed.panel.(visible := false, listening := false)
              && r.state.scene.occ.history == ed.scene.occ.history
              && (clearSelection ==>
                    r.state.selection.points == [] && r.state.selection.curves == [] && r.state.selection.surfaces == [])
              && (!clearSelection ==> r.state.selection == ed.selection)
    ensures ed.panel.visible && !ed.scene.occ.visualizing ==> r.state.scene.occ == ed.scene.occ
    ensures var m := ed.scene.occ;
            ed.panel.visible && m.visualizing && 0 < |m.shapes| <= Int32Max + 1 ==>
              !r.state.scene.occ.visualizing
              && O.Live(r.state.scene.occ) == O.Live(O.DeleteShape(m, ToInt32(|m.shapes| - 1)))
  {
    if !ed.panel.visible then Done(ed)
    else
      var hidden := ed.(panel := ed.panel.(visible := false, listening := false));
      var cleared := if clearSelection then Sel.SelectOneType(ed.selection, Sel.NoElement) else Done(ed.selection);
      // with every list emptied, the highlight refresh cannot throw
      assert cleared.Done?;
      WithScene(hidden.(selection := cleared.state), V.EndCurveAddingVisualization(k, ed.scene))
  }

  /** Closing twice is closing once. */
  lemma CloseIsIdempotent<S, E>(k: Kernel<S, E>, ed: Editor<S, E, ArcPanel>, clearSelection: bool, again: bool)
    requires V.WellFormed(ed.scene)
    ensures var once := ClosePanel(k, ed, clearSelection);
            once.Defined() && V.WellFormed(once.state.scene) ==> ClosePanel(k, once.state, again) == Done(once.state)
  {
  }
}
