/**
 The editor component's click handlers over the frame store and the tool state.
 Each handler first captures the canvas into the current frame, then applies
 its own change; what the canvas serialiser returns at that moment is an input.
 */
module AnimationEditor {
  import opened FrameStore
  import opened CanvasRender

  datatype Tool = SelectTool | BrushTool

  /** Everything the click handlers change: the frames, the selected tool, the canvas drawing mode. */
  datatype Editor = Editor(store: Store, tool: Tool, drawingMode: bool)

  /** The timeline buttons; a frame in the timeline list carries its own position. */
  datatype TimelineButton = NewKeyframe | DupKeyframe | Play | TimelineKeyframe(index: nat)

  datatype ToolbarButton = SelectButton | BrushButton | EraserButton

  /** Free drawing is only ever switched on together with the brush tool. */
  predicate DrawingImpliesBrush(ed: Editor) {
    ed.drawingMode ==> ed.tool == BrushTool
  }

  /** Free drawing is on exactly while the brush is the selected tool. */
  predicate DrawingIffBrush(ed: Editor) {
    ed.drawingMode <==> ed.tool == BrushTool
  }

  /** The editor once mounted: the initial store, the brush tool, free drawing on. */
  function InitEditor(): (ed: Editor)
    ensures Valid(ed.store) && ed.store == FrameStore.Init()
    ensures ed.tool == BrushTool && ed.drawingMode
    ensures DrawingIffBrush(ed)
  {
    Editor(FrameStore.Init(), BrushTool, true)
  }

  /** selectTimelineButton: capture the current frame, then act on the button. */
  function SelectTimelineButton(ed: Editor, button: TimelineButton, snap: Snapshot): (r: Editor)
    requires ed.store.cursor < |ed.store.frames|
    ensures r.tool == ed.tool && r.drawingMode == ed.drawingMode
    ensures |r.store.frames| >= |ed.store.frames|
    // the capture lands in the slot that was current, which no insertion moves
    ensures r.store.frames[ed.store.cursor] == Filled(snap)
    ensures forall j :: 0 <= j < ed.store.cursor ==> r.store.frames[j] == ed.store.frames[j]
    ensures button == Play ==> r.store == Capture(ed.store, snap)
    ensures button.TimelineKeyframe? ==>
              r.store.frames == Capture(ed.store, snap).frames && r.store.cursor == button.index
    ensures button == DupKeyframe ==>
              r.store.cursor == ed.store.cursor + 1 && r.store.cursor < |r.store.frames| && r.store.frames[r.store.cursor] == r.store.frames[ed.store.cursor]
    ensures button == NewKeyframe ==>
              r.store.cursor == ed.store.cursor + 1 && r.store.cursor < |r.store.frames| && r.store.frames[r.store.cursor] == Empty
    ensures button == NewKeyframe ==> r.store == AddNewFrame(Capture(ed.store, snap))
    ensures button == DupKeyframe ==> r.store == DuplicateFrame(Capture(ed.store, snap), snap)
    ensures Valid(ed.store) ==>
              (Valid(r.store) <==> (button.TimelineKeyframe? ==> button.index < |ed.store.frames|))
  {
    var captured := Capture(ed.store, snap);
    var store :=
      match button
      // the playback handler has an empty body
      case Play => captured
      case NewKeyframe => AddNewFrame(captured)
      case DupKeyframe => DuplicateFrame(captured, snap)
      case TimelineKeyframe(index) => MoveTo(captured, index);
    ed.(store := store)
  }

  /** selectToolbarButton: capture the current frame, switch drawing off, then act on the button. */
  function SelectToolbarButton(ed: Editor, button: ToolbarButton, snap: Snapshot): (r: Editor)
    requires ed.store.cursor < |ed.store.frames|
    ensures r.store == Capture(ed.store, snap)
    ensures r.drawingMode <==> button == BrushButton
    ensures button == SelectButton ==> r.tool == SelectTool
    ensures button == BrushButton ==> r.tool == BrushTool
    ensures button == EraserButton ==> r.tool == ed.tool
    ensures DrawingImpliesBrush(r)
    ensures button != EraserButton ==> DrawingIffBrush(r)
  {
    var captured := ed.(store := Capture(ed.store, snap), drawingMode := false);
    match button
    case SelectButton => captured.(tool := SelectTool)
    case BrushButton => captured.(tool := BrushTool, drawingMode := true)
    case EraserButton => captured
  }

  /**
   The canvas effect that follows a click: React runs it only when the cursor
   value changed, and then it reads the frames as the click left them.
   */
  function CursorEffect(before: Editor, after: Editor, canvas: CanvasState): (r: RenderAction)
    requires after.store.cursor < |after.store.frames|
    ensures before.store.cursor == after.store.cursor ==> r == Skip
    ensures before.store.cursor != after.store.cursor && canvas.Mounted? ==> r != Skip
    ensures r == Clear ==> after.store.frames[after.store.cursor] == Empty
    ensures r.Load? ==> r.slot == after.store.frames[after.store.cursor]
    ensures before.store.cursor != after.store.cursor ==> r == RenderOnCursorChange(canvas, after.store)
  {
    if before.store.cursor == after.store.cursor then Skip else RenderOnCursorChange(canvas, after.store)
  }

  /** A new frame blanks a drawn canvas; on a blank canvas it loads the empty slot. */
  lemma NewFrameRender(ed: Editor, snap: Snapshot, isEmpty: bool)
    requires ed.store.cursor < |ed.store.frames|
    ensures var after := SelectTimelineButton(ed, NewKeyframe, snap);
            CursorEffect(ed, after, Mounted(isEmpty)) == (if isEmpty then Load(Empty) else Clear)
  {
  }

  /** A duplicated frame reloads exactly the snapshot that was just captured. */
  lemma DuplicateRender(ed: Editor, snap: Snapshot, canvas: CanvasState)
    requires ed.store.cursor < |ed.store.frames|
    requires canvas.Mounted?
    ensures var after := SelectTimelineButton(ed, DupKeyframe, snap);
            CursorEffect(ed, after, canvas) == Load(Filled(snap))
  {
  }

  /** Play and a click on the current frame leave the canvas alone. */
  lemma NoCursorChangeNoRender(ed: Editor, button: TimelineButton, snap: Snapshot, canvas: CanvasState)
    requires ed.store.cursor < |ed.store.frames|
    requires button == Play || button == TimelineKeyframe(ed.store.cursor)
    ensures CursorEffect(ed, SelectTimelineButton(ed, button, snap), canvas) == Skip
  {
  }

  /**
   Clicking another frame in the timeline shows that frame as it was before the
   click: the capture only wrote the frame being left.
   */
  lemma JumpRendersTarget(ed: Editor, index: nat, snap: Snapshot, canvas: CanvasState)
    requires ed.store.cursor < |ed.store.frames|
    requires index < |ed.store.frames| && index != ed.store.cursor
    ensures CursorEffect(ed, SelectTimelineButton(ed, TimelineKeyframe(index), snap), canvas)
            == RenderOnCursorChange(canvas, ed.store.(cursor := index))
  {
  }

  /** Pressing the same toolbar button twice over the same canvas is the same as pressing it once. */
  lemma ToolbarIdempotent(ed: Editor, button: ToolbarButton, snap: Snapshot)
    requires ed.store.cursor < |ed.store.frames|
    ensures SelectToolbarButton(SelectToolbarButton(ed, button, snap), button, snap)
            == SelectToolbarButton(ed, button, snap)
  {
  }
}
