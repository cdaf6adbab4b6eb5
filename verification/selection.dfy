/** The selection engine (`SelectionManager.cs`) and the highlight masks it
    refreshes (`highlightElements` and `highlight*` in
    `VisualizationManager.cs`).

    Three lists hold the IDs of the selected curves, points and surfaces; the
    shape a picked element belongs to is not kept. After every change the
    three masks handed to the shaders are rebuilt from the lists. */
module Selection {
  import opened Outcomes

  /** The size of each mask array. */
  const MaskSize: nat := 1000

  /** `ElementType`; `NoElement` is the enum's `None`. */
  datatype ElementType = Point | Curve | Surface | Volume | NoElement

  /** The `selectedElements` parameter of the curve, point and surface
      shaders. */
  datatype Masks = Masks(curves: seq<bool>, points: seq<bool>, surfaces: seq<bool>)

  datatype Selection = Selection(curves: seq<int>, points: seq<int>, surfaces: seq<int>, masks: Masks)

  /** Every ID is a valid mask slot. */
  predicate InMask(ids: seq<int>) {
    forall i :: 0 <= i < |ids| ==> 0 <= ids[i] < MaskSize
  }

  /** The mask has one slot per possible ID and marks exactly the listed IDs. */
  ghost predicate Marks(mask: seq<bool>, ids: seq<int>) {
    |mask| == MaskSize && forall j :: 0 <= j < MaskSize ==> (mask[j] <==> j in ids)
  }

  /** All three masks show the current selection. */
  ghost predicate Highlighted(s: Selection) {
    Marks(s.masks.curves, s.curves) && Marks(s.masks.points, s.points) && Marks(s.masks.surfaces, s.surfaces)
  }

  /** The `foreach` of a `highlight*` routine: set each listed slot; an ID
      outside the array throws. */
  function Mark(arr: seq<bool>, ids: seq<int>): (r: Option<seq<bool>>)
    requires |arr| == MaskSize
    decreases |ids|
    ensures r.Some? <==> InMask(ids)
    ensures r.Some? ==> |r.value| == MaskSize && forall j :: 0 <= j < MaskSize ==> (r.value[j] <==> arr[j] || j in ids)
  {
    if ids == [] then Some(arr)
    else if !(0 <= ids[0] < MaskSize) then None
    else
      var r := Mark(arr[ids[0] := true], ids[1..]);
      assert forall i :: 1 <= i < |ids| ==> ids[i] == ids[1..][i - 1];
      assert forall j :: j in ids <==> j == ids[0] || j in ids[1..];
      r
  }

  /** A `highlight*` routine: a cleared array of 1000 slots with the listed
      IDs set; `None` when an ID throws. */
  function Mask(ids: seq<int>): (r: Option<seq<bool>>)
    ensures r.Some? <==> InMask(ids)
    ensures r.Some? ==> Marks(r.value, ids)
  {
    Mark(seq(MaskSize, _ => false), ids)
  }

  /** `highlightElements()`: curves, then points, then surfaces. A throw
      leaves the earlier masks updated and the later ones as they were. */
  function HighlightElements(s: Selection): (r: Run<Selection>)
    ensures r.Defined()
    ensures r.state.curves == s.curves && r.state.points == s.points && r.state.surfaces == s.surfaces
    ensures r.Done? <==> InMask(s.curves) && InMask(s.points) && InMask(s.surfaces)
    ensures r.Done? ==> Highlighted(r.state)
    ensures !InMask(s.curves) ==> r == Threw(s)
  {
    match Mask(s.curves)
    case None => Threw(s)
    case Some(c) =>
      var s1 := s.(masks := s.masks.(curves := c));
      match Mask(s.points)
      case None => Threw(s1)
      case Some(p) =>
        var s2 := s1.(masks := s1.masks.(points := p));
        match Mask(s.surfaces)
        case None => Threw(s2)
        case Some(f) => Done(s2.(masks := s2.masks.(surfaces := f)))
  }

  /** The lists `selectOneType(except)` keeps. */
  predicate Keeps(except: ElementType, kind: ElementType) {
    except == kind || except == Volume
  }

  /** `selectOneType(except)`: empty every list but the one for `except`
      (all of them for `NoElement`, none for `Volume`), then refresh the
      masks. */
  function SelectOneType(s: Selection, except: ElementType): (r: Run<Selection>)
    ensures r.Defined()
    ensures r.state.curves == (if Keeps(except, Curve) then s.curves else [])
    ensures r.state.points == (if Keeps(except, Point) then s.points else [])
    ensures r.state.surfaces == (if Keeps(except, Surface) then s.surfaces else [])
    ensures r.Done? <==> InMask(r.state.curves) && InMask(r.state.points) && InMask(r.state.surfaces)
    ensures r.Done? ==> Highlighted(r.state)
  {
    var cleared :=
      match except
      case Curve => s.(points := [], surfaces := [])
      case Point => s.(curves := [], surfaces := [])
      case Surface => s.(points := [], curves := [])
      case NoElement => s.(curves := [], points := [], surfaces := [])
      case Volume => s;
    HighlightElements(cleared)
  }

  /** The list of `kind` after a hit on element `id`: appended to with
      multi-select, replaced by `[id]` without. */
  function Extended(ids: seq<int>, id: int, multi: bool): (r: seq<int>)
    ensures |r| > 0 && r[|r| - 1] == id
    ensures multi ==> |r| == |ids| + 1 && r[..|ids|] == ids
    ensures !multi ==> |r| == 1
  {
    if multi then ids + [id] else [id]
  }

  /** The body shared by `selectPoint`, `selectCurve` and `selectSurface`: a
      miss (shape or element -1) clears everything; a hit extends the list
      for `kind` and clears the other two. */
  function SelectKind(s: Selection, kind: ElementType, shapeId: int, id: int, multi: bool): (r: Run<Selection>)
    requires kind == Point || kind == Curve || kind == Surface
    ensures r.Defined()
    ensures shapeId == -1 || id == -1 ==> r.state.curves == [] && r.state.points == [] && r.state.surfaces == []
    ensures shapeId != -1 && id != -1 ==>
              && r.state.curves == (if kind == Curve then Extended(s.curves, id, multi) else [])
              && r.state.points == (if kind == Point then Extended(s.points, id, multi) else [])
              && r.state.surfaces == (if kind == Surface then Extended(s.surfaces, id, multi) else [])
    ensures r.Done? <==> InMask(r.state.curves) && InMask(r.state.points) && InMask(r.state.surfaces)
    ensures r.Done? ==> Highlighted(r.state)
  {
    if shapeId == -1 || id == -1 then SelectOneType(s, NoElement)
    else
      var added :=
        match kind
        case Curve => s.(curves := Extended(s.curves, id, multi))
        case Point => s.(points := Extended(s.points, id, multi))
        case _ => s.(surfaces := Extended(s.surfaces, id, multi));
      SelectOneType(added, kind)
  }

  /** `selectPoint((shape, point), multiSelect)`, without the `PointSelected`
      signal it emits at the end. */
  function SelectPoint(s: Selection, shapeId: int, pointId: int, multi: bool): (r: Run<Selection>)
    ensures r.Defined()
    ensures shapeId == -1 || pointId == -1 ==> r.state.curves == [] && r.state.points == [] && r.state.surfaces == []
    ensures shapeId != -1 && pointId != -1 ==>
              r.state.points == Extended(s.points, pointId, multi) && r.state.curves == [] && r.state.surfaces == []
    ensures r.Done? <==> InMask(r.state.points)
    ensures r.Done? ==> Highlighted(r.state)
  {
    SelectKind(s, Point, shapeId, pointId, multi)
  }

  /** `selectCurve((shape, edge))`, `multi` being the Ctrl key state. */
  function SelectCurve(s: Selection, shapeId: int, edgeId: int, controlPressed: bool): (r: Run<Selection>)
    ensures r.Defined()
    ensures shapeId == -1 || edgeId == -1 ==> r.state.curves == [] && r.state.points == [] && r.state.surfaces == []
    ensures shapeId != -1 && edgeId != -1 ==>
              r.state.curves == Extended(s.curves, edgeId, controlPressed) && r.state.points == [] && r.state.surfaces == []
    ensures r.Done? <==> InMask(r.state.curves)
    ensures r.Done? ==> Highlighted(r.state)
  {
    SelectKind(s, Curve, shapeId, edgeId, controlPressed)
  }

  /** `selectSurface((shape, surface))`, `multi` being the Ctrl key state. */
  function SelectSurface(s: Selection, shapeId: int, surfaceId: int, controlPressed: bool): (r: Run<Selection>)
    ensures r.Defined()
    ensures shapeId == -1 || surfaceId == -1 ==> r.state.curves == [] && r.state.points == [] && r.state.surfaces == []
    ensures shapeId != -1 && surfaceId != -1 ==>
              r.state.surfaces == Extended(s.surfaces, surfaceId, controlPressed) && r.state.points == [] && r.state.curves == []
    ensures r.Done? <==> InMask(r.state.surfaces)
    ensures r.Done? ==> Highlighted(r.state)
  {
    SelectKind(s, Surface, shapeId, surfaceId, controlPressed)
  }

  /** Selecting the same element again without multi-select changes nothing. */
  lemma SelectPointIdempotent(s: Selection, shapeId: int, pointId: int)
    requires SelectPoint(s, shapeId, pointId, false).Done?
    ensures var once := SelectPoint(s, shapeId, pointId, false).state;
            SelectPoint(once, shapeId, pointId, false) == Done(once)
  {
  }

  /** With multi-select, a repeated pick is kept twice. */
  lemma MultiSelectKeepsDuplicates(s: Selection, pointId: int)
    requires pointId != -1
    ensures var once := SelectPoint(s, 0, pointId, true).state;
            var twice := SelectPoint(once, 0, pointId, true).state;
            |twice.points| == |s.points| + 2 && twice.points[|s.points|] == twice.points[|s.points| + 1] == pointId
  {
  }
}
