/** The kernel module's linear undo history (`occmanager.cpp`, `save_state`
    to `get_current_state_position`).

    The C++ class keeps four parallel stacks, one entry per saved state: the
    shape list, the per-shape vertex lists, the per-shape edge lists and the
    state's label; `position_in_stack` is the cursor. The history is generic
    over the three snapshot parts, which the model treats as opaque values. */
module History {
  import opened Outcomes
  import opened CInt

  /** The part of the kernel that a snapshot copies. */
  datatype Live<Sh, Vx, Ed> = Live(shapes: Sh, vertices: Vx, edges: Ed)

  datatype History<Sh, Vx, Ed> = History(
    shapeStack: seq<Sh>,
    vertexStack: seq<Vx>,
    edgeStack: seq<Ed>,
    labels: seq<string>,
    position: Int32)

  /** What `load_state` leaves behind, and what it returns. */
  datatype Loaded<Sh, Vx, Ed> = Loaded(history: History<Sh, Vx, Ed>, live: Live<Sh, Vx, Ed>, changed: bool)

  /** The four stacks have one entry per saved state. */
  predicate Parallel<Sh, Vx, Ed>(h: History<Sh, Vx, Ed>) {
    && |h.vertexStack| == |h.shapeStack|
    && |h.edgeStack| == |h.shapeStack|
    && |h.labels| == |h.shapeStack|
  }

  /** The stacks are short enough for every index to fit in an `int`. */
  predicate Fits<Sh, Vx, Ed>(h: History<Sh, Vx, Ed>) {
    |h.shapeStack| < Int32Max
  }

  /** The cursor designates a saved state, and is -1 exactly when there is none. */
  predicate Settled<Sh, Vx, Ed>(h: History<Sh, Vx, Ed>) {
    && Parallel(h)
    && (if |h.labels| == 0 then h.position == -1 else 0 <= h.position < |h.labels|)
  }

  function Snapshot<Sh, Vx, Ed>(h: History<Sh, Vx, Ed>, p: int): Live<Sh, Vx, Ed>
    requires Parallel(h) && 0 <= p < |h.shapeStack|
  {
    Live(h.shapeStack[p], h.vertexStack[p], h.edgeStack[p])
  }

  /** The state of a freshly constructed manager: nothing saved, cursor -1. */
  function Empty<Sh, Vx, Ed>(): (h: History<Sh, Vx, Ed>)
    ensures Settled(h) && Fits(h)
    ensures h.position == -1 && |h.labels| == 0
  {
    History([], [], [], [], -1)
  }

  /** The guard of `save_state`: the cursor is not -1 and, compared as an
      unsigned value, lies below `size() - 1`. */
  predicate DiscardsRedo<Sh, Vx, Ed>(h: History<Sh, Vx, Ed>) {
    h.position != -1 && ToSizeT(h.position) < ToSizeT(|h.shapeStack| - 1)
  }

  /** `save_state(name)`: drop every entry after the cursor when the guard
      holds, then push the live state and move the cursor onto it. `None`
      when the erase would start outside the vectors (an empty history with a
      cursor other than -1), which is undefined behaviour in C++. */
  function SaveState<Sh, Vx, Ed>(h: History<Sh, Vx, Ed>, live: Live<Sh, Vx, Ed>, name: string): (r: Option<History<Sh, Vx, Ed>>)
    requires Parallel(h)
    ensures r.Some? ==> Parallel(r.value) && |r.value.shapeStack| > 0
    ensures r.Some? ==> Snapshot(r.value, |r.value.shapeStack| - 1) == live
    ensures r.Some? ==> r.value.labels[|r.value.labels| - 1] == name
    ensures Fits(h) ==> (r.None? <==> |h.shapeStack| == 0 && h.position != -1)
    ensures Fits(h) && r.Some? ==> r.value.position == |r.value.shapeStack| - 1
    // an undo-ed tail is erased before the push
    ensures Fits(h) && 0 <= h.position < |h.shapeStack| - 1 ==>
              r.Some? && |r.value.shapeStack| == h.position + 2
              && r.value.shapeStack[..h.position + 1] == h.shapeStack[..h.position + 1]
              && r.value.vertexStack[..h.position + 1] == h.vertexStack[..h.position + 1]
              && r.value.edgeStack[..h.position + 1] == h.edgeStack[..h.position + 1]
              && r.value.labels[..h.position + 1] == h.labels[..h.position + 1]
    // otherwise every earlier entry is kept
    ensures Fits(h) && |h.shapeStack| > 0 && !(0 <= h.position < |h.shapeStack| - 1) ==>
              r.Some? && |r.value.shapeStack| == |h.shapeStack| + 1
              && r.value.shapeStack[..|h.shapeStack|] == h.shapeStack
              && r.value.vertexStack[..|h.shapeStack|] == h.vertexStack
              && r.value.edgeStack[..|h.shapeStack|] == h.edgeStack
              && r.value.labels[..|h.shapeStack|] == h.labels
  {
    if DiscardsRedo(h) then
      var keep := h.position + 1;
      if 0 <= keep <= |h.shapeStack| then
        Some(Push(History(h.shapeStack[..keep], h.vertexStack[..keep], h.edgeStack[..keep], h.labels[..keep], h.position), live, name))
      else
        None
    else
      Some(Push(h, live, name))
  }

  /** The four `push_back`s and `position_in_stack = size() - 1`. */
  function Push<Sh, Vx, Ed>(h: History<Sh, Vx, Ed>, live: Live<Sh, Vx, Ed>, name: string): History<Sh, Vx, Ed> {
    History(h.shapeStack + [live.shapes], h.vertexStack + [live.vertices], h.edgeStack + [live.edges],
            h.labels + [name], ToInt32(|h.shapeStack + [live.shapes]| - 1))
  }

  /** `load_state(position)`. Asking for the current position reports no
      change. Any other position becomes the cursor and is reported as a
      change, but the live state is overwritten only when the position, read
      as an unsigned value, indexes the stacks. */
  function LoadState<Sh, Vx, Ed>(h: History<Sh, Vx, Ed>, live: Live<Sh, Vx, Ed>, position: Int32): (r: Loaded<Sh, Vx, Ed>)
    requires Parallel(h)
    ensures Parallel(r.history)
    ensures r.history.shapeStack == h.shapeStack && r.history.vertexStack == h.vertexStack
    ensures r.history.edgeStack == h.edgeStack && r.history.labels == h.labels
    ensures r.changed <==> position != h.position
    ensures r.history.position == position
    ensures !r.changed ==> r.live == live
    ensures Fits(h) && r.changed && 0 <= position < |h.shapeStack| ==> r.live == Snapshot(h, position)
    // out of range: reported as a change although nothing was restored
    ensures Fits(h) && r.changed && !(0 <= position < |h.shapeStack|) ==> r.live == live
  {
    if h.position == position then
      Loaded(h, live, false)
    else
      var restored := if ToSizeT(position) < |h.shapeStack| then Snapshot(h, ToSizeT(position)) else live;
      Loaded(h.(position := position), restored, true)
  }

  /** `load_state` ends by printing the history, and the print loop compares
      each label's index with `position_in_stack + 1` and then with
      `position_in_stack - 1`, both on an `int`. Once a label exists, a jump
      to `INT_MAX` overflows the first sum and a jump to `INT_MIN` the second
      difference. A jump to the current position returns before printing. */
  predicate LoadOverflows<Sh, Vx, Ed>(h: History<Sh, Vx, Ed>, position: Int32) {
    position != h.position && |h.labels| > 0 && (position == Int32Max || position == Int32Min)
  }

  /** `undo` and `redo` never jump where the print overflows: `undo` lands
      on a cursor in `0 .. INT_MAX - 1`, and on a history that fits an `int`
      `redo` moves only from an entry below the newest, or on an empty
      history where nothing is printed. */
  lemma StepsNeverOverflowPrint<Sh, Vx, Ed>(h: History<Sh, Vx, Ed>)
    requires Parallel(h) && Fits(h)
    ensures h.position > 0 ==> !LoadOverflows(h, h.position - 1)
    ensures RedoMoves(h) ==> !LoadOverflows(h, ToInt32(h.position + 1))
  {
  }

  /** `undo`: one step back through `load_state` when the cursor is above 0.
      A cursor past the newest entry (left there by a jump out of range)
      still steps back, and restores nothing until it is back in range. */
  function Undo<Sh, Vx, Ed>(h: History<Sh, Vx, Ed>, live: Live<Sh, Vx, Ed>): (r: Loaded<Sh, Vx, Ed>)
    requires Parallel(h)
    ensures Parallel(r.history)
    ensures h.position <= 0 ==> r == Loaded(h, live, false)
    ensures h.position > 0 ==> r.changed && r.history == h.(position := h.position - 1)
    ensures h.position > 0 && h.position - 1 < |h.shapeStack| ==> r.live == Snapshot(h, h.position - 1)
    ensures h.position > 0 && h.position - 1 >= |h.shapeStack| ==> r.live == live
  {
    if h.position > 0 then LoadState(h, live, h.position - 1) else Loaded(h, live, false)
  }

  /** The guard of `redo`: the cursor lies below `size() - 1` in an
      unsigned comparison. It fails on the newest entry and for the cursor
      -1, and holds for any cursor below -1 once nothing is saved. */
  predicate RedoMoves<Sh, Vx, Ed>(h: History<Sh, Vx, Ed>) {
    ToSizeT(h.position) < ToSizeT(|h.shapeStack| - 1)
  }

  /** `redo`: one step forward through `load_state` when the guard holds;
      the step is reported as a change even when the new cursor indexes no
      entry and nothing is restored. */
  function Redo<Sh, Vx, Ed>(h: History<Sh, Vx, Ed>, live: Live<Sh, Vx, Ed>): (r: Loaded<Sh, Vx, Ed>)
    requires Parallel(h)
    ensures Parallel(r.history)
    ensures r.changed <==> RedoMoves(h)
    ensures !r.changed ==> r == Loaded(h, live, false)
    ensures r.changed ==> r.history == h.(position := ToInt32(h.position + 1))
    ensures Fits(h) && r.changed && 0 <= h.position + 1 < |h.shapeStack| ==> r.live == Snapshot(h, h.position + 1)
    ensures Fits(h) && r.changed && !(0 <= h.position + 1 < |h.shapeStack|) ==> r.live == live
    ensures Settled(h) && h.position == |h.shapeStack| - 1 ==> r == Loaded(h, live, false)
    ensures Settled(h) && Fits(h) && h.position < |h.shapeStack| - 1 ==>
              r.history == h.(position := h.position + 1) && r.live == Snapshot(h, h.position + 1)
  {
    if RedoMoves(h) then
      LoadState(h, live, ToInt32(h.position + 1))
    else
      Loaded(h, live, false)
  }

  /** `get_undo_stack`: the labels, oldest first. */
  function UndoStack<Sh, Vx, Ed>(h: History<Sh, Vx, Ed>): (r: seq<string>)
    ensures Parallel(h) ==> |r| == |h.shapeStack|
  {
    h.labels
  }

  /** `get_current_state_position`. */
  function CurrentStatePosition<Sh, Vx, Ed>(h: History<Sh, Vx, Ed>): (r: Int32)
    ensures Settled(h) ==> -1 <= r < |UndoStack(h)|
    ensures Settled(h) && |h.labels| > 0 ==> 0 <= r
  {
    h.position
  }

  /** After a save the redo branch is gone: `redo` cannot move. */
  lemma SaveThenRedoIsNoop<Sh, Vx, Ed>(h: History<Sh, Vx, Ed>, live: Live<Sh, Vx, Ed>, name: string, later: Live<Sh, Vx, Ed>)
    requires Parallel(h) && Fits(h)
    requires SaveState(h, live, name).Some?
    ensures Redo(SaveState(h, live, name).value, later) == Loaded(SaveState(h, live, name).value, later, false)
  {
    var s := SaveState(h, live, name).value;
    assert s.position == |s.shapeStack| - 1;
    assert !DiscardsRedo(s);
  }

  /** Undoing a save goes back to the entry that was current before it and
      restores that entry's snapshot, whatever the live state was. */
  lemma {:induction false} SaveThenUndo<Sh, Vx, Ed>(h: History<Sh, Vx, Ed>, live: Live<Sh, Vx, Ed>, name: string, later: Live<Sh, Vx, Ed>)
    requires Settled(h) && Fits(h) && h.position >= 0
    ensures var s := SaveState(h, live, name).value;
            var u := Undo(s, later);
            u.history.position == h.position && u.live == Snapshot(h, h.position)
  {
    var s := SaveState(h, live, name).value;
    var p := h.position;
    assert |s.shapeStack| == p + 2 && s.position == p + 1 by {
      if p < |h.shapeStack| - 1 {
      } else {
        assert p == |h.shapeStack| - 1;
      }
    }
    assert s.shapeStack[..p + 1] == h.shapeStack[..p + 1];
    assert s.vertexStack[..p + 1] == h.vertexStack[..p + 1];
    assert s.edgeStack[..p + 1] == h.edgeStack[..p + 1];
    assert s.shapeStack[p] == s.shapeStack[..p + 1][p];
    assert s.vertexStack[p] == s.vertexStack[..p + 1][p];
    assert s.edgeStack[p] == s.edgeStack[..p + 1][p];
    assert Snapshot(s, p) == Snapshot(h, p);
  }

  /** A save never rewrites an entry it keeps: every entry below the new
      one was already in the history, unchanged. */
  lemma SaveKeepsEntries<Sh, Vx, Ed>(h: History<Sh, Vx, Ed>, live: Live<Sh, Vx, Ed>, name: string)
    requires Parallel(h) && SaveState(h, live, name).Some?
    ensures var r := SaveState(h, live, name).value;
            && |r.shapeStack| - 1 <= |h.shapeStack|
            && forall p :: 0 <= p < |r.shapeStack| - 1 ==>
                 r.shapeStack[p] == h.shapeStack[p] && r.vertexStack[p] == h.vertexStack[p]
                 && r.edgeStack[p] == h.edgeStack[p] && r.labels[p] == h.labels[p]
  {
  }

  /** Saving keeps the cursor on a saved state. */
  lemma SaveSettles<Sh, Vx, Ed>(h: History<Sh, Vx, Ed>, live: Live<Sh, Vx, Ed>, name: string)
    requires Settled(h) && Fits(h)
    ensures SaveState(h, live, name).Some? && Settled(SaveState(h, live, name).value)
  {
  }

  /** `undo` then `redo` returns to the same entry and restores its snapshot. */
  lemma UndoRedoRoundTrip<Sh, Vx, Ed>(h: History<Sh, Vx, Ed>, live: Live<Sh, Vx, Ed>)
    requires Settled(h) && Fits(h) && h.position > 0
    ensures var u := Undo(h, live);
            var r := Redo(u.history, u.live);
            r.history == h && r.live == Snapshot(h, h.position)
  {
    var u := Undo(h, live);
    assert u.history == h.(position := h.position - 1);
    assert Settled(u.history);
  }

  /** `redo` then `undo` returns to the same entry and restores its snapshot. */
  lemma RedoUndoRoundTrip<Sh, Vx, Ed>(h: History<Sh, Vx, Ed>, live: Live<Sh, Vx, Ed>)
    requires Settled(h) && Fits(h) && 0 <= h.position < |h.shapeStack| - 1
    ensures var f := Redo(h, live);
            var r := Undo(f.history, f.live);
            r.history == h && r.live == Snapshot(h, h.position)
  {
    var f := Redo(h, live);
    assert f.history == h.(position := h.position + 1);
    assert Settled(f.history);
  }

  /** Stepping keeps the cursor on a saved state; jumping keeps it there
      exactly when the target is the current position or a saved one. */
  lemma NavigationSettles<Sh, Vx, Ed>(h: History<Sh, Vx, Ed>, live: Live<Sh, Vx, Ed>, position: Int32)
    requires Settled(h) && Fits(h)
    ensures Settled(Undo(h, live).history)
    ensures Settled(Redo(h, live).history)
    ensures Settled(LoadState(h, live, position).history) <==>
              (position == h.position || 0 <= position < |h.shapeStack|)
  {
  }

  /** A jump on an empty history is accepted, and the next save then erases
      from outside the vectors. */
  lemma JumpOnEmptyThenSaveIsUndefined<Sh, Vx, Ed>(live: Live<Sh, Vx, Ed>, name: string)
    ensures var j := LoadState(Empty(), live, 0);
            j.changed && j.live == live && SaveState(j.history, live, name).None?
  {
  }

  /** A jump to a negative position on a history with saved entries leaves
      the cursor where `redo` cannot move it and where `save_state` erases
      nothing: the next save appends after every entry, the undone ones
      included. */
  lemma JumpBelowZeroKeepsEveryEntry<Sh, Vx, Ed>(h: History<Sh, Vx, Ed>, live: Live<Sh, Vx, Ed>, position: Int32, name: string)
    requires Parallel(h) && Fits(h) && 0 < |h.shapeStack| && Int32Min < position < 0
    ensures var j := LoadState(h, live, position);
            && Redo(j.history, j.live) == Loaded(j.history, j.live, false)
            && SaveState(j.history, live, name) == Some(Push(j.history, live, name))
  {
  }

  /** `load_state` accepts any cursor, and on an empty history the unsigned
      guard of `redo` compares against `size() - 1`, the largest `size_t`:
      after a jump to `INT_MAX`, `redo` still moves, so the C++ increment of
      the cursor overflows a signed `int`. */
  lemma JumpToInt32MaxStillRedoes<Sh, Vx, Ed>(h: History<Sh, Vx, Ed>, live: Live<Sh, Vx, Ed>)
    requires Parallel(h) && |h.shapeStack| == 0
    ensures var j := LoadState(h, live, Int32Max);
            && RedoMoves(j.history) && j.history.position + 1 > Int32Max
            && Redo(j.history, j.live).history.position == Int32Min
  {
  }
}
