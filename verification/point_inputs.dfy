/** What the arc and segment entry panels (`AddArcEntry.cs`,
    `AddSegmentEntry.cs`) have in common: a row of point inputs, each a
    Godot `OptionButton` listing point IDs, and the two routines that keep
    those inputs and the point selection in step.

    An `OptionButton` is modelled by its item IDs, in item order, and the
    index of its selected item (-1 for none). Following Godot's documented
    behaviour, `GetSelectedId()` reports the ID of the selected item, or -1
    with nothing selected, and `Select(index)` takes an item INDEX: -1
    clears the choice and an index out of range is reported by the engine
    and ignored. */
module PointInputs {
  import opened Outcomes
  import opened CInt
  import Sel = Selection
  import V = Visualization

  datatype Input = Input(items: seq<Int32>, selected: int)

  /** A panel session: the scene, the point selection and the panel `P`. */
  datatype Editor<S, E, P> = Editor(scene: V.Scene<S, E>, selection: Sel.Selection, panel: P)

  /** A selection routine run inside a panel handler: the editor carries
      the selection it leaves, and the handler ends with it. */
  function WithSelection<S, E, P>(ed: Editor<S, E, P>, r: Run<Sel.Selection>): (t: Run<Editor<S, E, P>>)
    requires r.Defined()
    ensures t.Done? == r.Done? && t.Defined()
    ensures t.state == ed.(selection := r.state)
  {
    if r.Done? then Done(ed.(selection := r.state)) else Threw(ed.(selection := r.state))
  }

  /** A scene routine run inside a panel handler. */
  function WithScene<S, E, P>(ed: Editor<S, E, P>, r: Run<V.Scene<S, E>>): (t: Run<Editor<S, E, P>>)
    ensures t.Done? == r.Done? && t.Undefined? == r.Undefined?
    ensures t.Defined() ==> t.state == ed.(scene := r.state)
  {
    match r
    case Done(sc) => Done(ed.(scene := sc))
    case Threw(sc) => Threw(ed.(scene := sc))
    case Undefined => Undefined
  }

  /** `GetSelectedId()`. */
  function SelectedId(b: Input): (r: Int32)
    ensures r == -1 || r in b.items
    ensures 0 <= b.selected < |b.items| ==> r == b.items[b.selected]
  {
    if 0 <= b.selected < |b.items| then b.items[b.selected] else -1
  }

  /** `Select(index)`. */
  function Select(b: Input, index: int): (r: Input)
    ensures r.items == b.items
    ensures index == -1 ==> r.selected == -1
    ensures 0 <= index < |b.items| ==> r.selected == index
    ensures index != -1 && !(0 <= index < |b.items|) ==> r == b
  {
    if index == -1 || 0 <= index < |b.items| then b.(selected := index) else b
  }

  /** The IDs the inputs show, in panel order. */
  function SelectedIds(inputs: seq<Input>): (r: seq<Int32>)
    ensures |r| == |inputs|
    ensures forall k :: 0 <= k < |r| ==> r[k] == SelectedId(inputs[k])
  {
    if |inputs| == 0 then [] else [SelectedId(inputs[0])] + SelectedIds(inputs[1..])
  }

  /** The IDs up to, and not including, the first input showing nothing. */
  function Wanted(ids: seq<int>): (r: seq<int>)
    ensures |r| <= |ids| && r == ids[..|r|]
    ensures forall j :: 0 <= j < |r| ==> r[j] != -1
    ensures |r| < |ids| ==> ids[|r|] == -1
  {
    if |ids| == 0 || ids[0] == -1 then []
    else
      var rest := Wanted(ids[1..]);
      assert ids[1..][..|rest|] == ids[1..|rest| + 1];
      [ids[0]] + rest
  }

  /** The selection steps of `optionSelect` from input `j` on: stop at the
      first input showing nothing; otherwise select its point on shape 0,
      replacing the selection for the first input and adding to it after.
      A throw (a point ID outside the highlight mask) ends the handler. */
  function SelectFrom(s: Sel.Selection, ids: seq<int>, j: nat): (r: Run<Sel.Selection>)
    requires j <= |Wanted(ids)| && s.points == ids[..j] && s.curves == [] && s.surfaces == []
    requires Sel.InMask(s.points) && Sel.Highlighted(s)
    decreases |ids| - j
    ensures r.Defined() && r.state.curves == [] && r.state.surfaces == []
    ensures r.Done? <==> Sel.InMask(Wanted(ids))
    ensures r.Done? ==> r.state.points == Wanted(ids) && Sel.Highlighted(r.state)
    ensures r.Threw? ==>
              && j < |r.state.points| <= |Wanted(ids)| && r.state.points == Wanted(ids)[..|r.state.points|]
              && !Sel.InMask(r.state.points)
  {
    var w := Wanted(ids);
    if j == |w| then
      assert s.points == w;
      Done(s)
    else
      var next := Sel.SelectPoint(s, 0, ids[j], j > 0);
      assert next.state.points == ids[..j + 1] == w[..j + 1];
      if next.Done? then SelectFrom(next.state, ids, j + 1)
      else
        assert next.state.points[j] == w[j] && !(0 <= w[j] < Sel.MaskSize);
        next
  }

  /** The body shared by both panels' `optionSelect`: clear the selection,
      then select what the inputs show, in order. */
  function SelectInputs(s: Sel.Selection, ids: seq<int>): (r: Run<Sel.Selection>)
    ensures r.Defined() && r.state.curves == [] && r.state.surfaces == []
    ensures r.Done? <==> Sel.InMask(Wanted(ids))
    ensures r.Done? ==> r.state.points == Wanted(ids) && Sel.Highlighted(r.state)
    ensures r.Threw? ==>
              && 0 < |r.state.points| <= |Wanted(ids)| && r.state.points == Wanted(ids)[..|r.state.points|]
              && !Sel.InMask(r.state.points)
  {
    var cleared := Sel.SelectOneType(s, Sel.NoElement);
    if cleared.Done? then SelectFrom(cleared.state, ids, 0) else cleared
  }

  /** The body shared by both panels' `updatePointInputs`: input `k` selects
      the item at index `points[k]` while there is such a point. */
  function CopyInto(inputs: seq<Input>, points: seq<int>): (r: seq<Input>)
    ensures |r| == |inputs|
    ensures forall k :: 0 <= k < |r| ==> r[k] == (if k < |points| then Select(inputs[k], points[k]) else inputs[k])
  {
    seq(|inputs|, k requires 0 <= k < |inputs| => if k < |points| then Select(inputs[k], points[k]) else inputs[k])
  }

  /** The items of an input are listed with ID equal to index, which is how
      the panels fill them for the points of a single shape. */
  predicate IdsAreIndices(b: Input) {
    forall j :: 0 <= j < |b.items| ==> b.items[j] == j
  }

  /** When IDs are indices, a point copied into an input is the ID that input
      then shows. */
  lemma CopiedPointIsShown(inputs: seq<Input>, points: seq<int>, k: int)
    requires 0 <= k < |inputs| && k < |points| && IdsAreIndices(inputs[k])
    requires 0 <= points[k] < |inputs[k].items|
    ensures SelectedId(CopyInto(inputs, points)[k]) == points[k]
  {
  }

  /** Selecting from the inputs, then copying the selection back into them,
      leaves the inputs as they were: the refresh that follows a point
      selection changes nothing when IDs are indices. */
  lemma {:induction false} SelectThenCopyIsIdentity(s: Sel.Selection, inputs: seq<Input>)
    requires forall k :: 0 <= k < |inputs| ==> IdsAreIndices(inputs[k])
    requires SelectInputs(s, SelectedIds(inputs)).Done?
    ensures CopyInto(inputs, SelectInputs(s, SelectedIds(inputs)).state.points) == inputs
  {
    var ids := SelectedIds(inputs);
    var w := SelectInputs(s, ids).state.points;
    assert w == Wanted(ids);
    forall k | 0 <= k < |inputs|
      ensures CopyInto(inputs, w)[k] == inputs[k]
    {
      if k < |w| {
        assert ids[k] == w[k] != -1;
        assert inputs[k].selected == w[k];
      }
    }
  }

  /** Copying a full selection into the inputs, then selecting from them,
      gives back the same selection. */
  lemma {:induction false} CopyThenSelectRoundTrip(s: Sel.Selection, inputs: seq<Input>, points: seq<int>)
    requires |points| == |inputs|
    requires forall k :: 0 <= k < |inputs| ==> IdsAreIndices(inputs[k]) && 0 <= points[k] < |inputs[k].items|
    requires Sel.InMask(points)
    ensures var r := SelectInputs(s, SelectedIds(CopyInto(inputs, points)));
            r.Done? && r.state.points == points
  {
    var ids := SelectedIds(CopyInto(inputs, points));
    forall k | 0 <= k < |inputs|
      ensures ids[k] == points[k]
    {
      CopiedPointIsShown(inputs, points, k);
    }
    assert ids == points;
  }
}
