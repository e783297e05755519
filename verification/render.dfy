/**
 What the editor does to the drawing canvas when the current frame changes:
 either wipe the drawn objects or rehydrate the canvas from the current slot.
 The canvas itself is outside the model; only the facts the decision reads
 about it (whether it exists yet, whether it is empty) are inputs.
 */
module CanvasRender {
  import opened FrameStore

  /** The main canvas as the decision sees it: not created yet, or created and (non-)empty. */
  datatype CanvasState = Unmounted | Mounted(isEmpty: bool)

  /**
   The canvas side effect. `Load(Empty)` stands for loading the `null` slot,
   which the canvas library accepts; `Skip` is "nothing is done to the canvas".
   */
  datatype RenderAction = Skip | Clear | Load(slot: Slot)

  /** The decision taken by the effect that runs whenever the cursor changes. */
  function RenderOnCursorChange(canvas: CanvasState, st: Store): (r: RenderAction)
    requires st.cursor < |st.frames|
    ensures r == Skip <==> canvas == Unmounted
    ensures r == Clear <==> canvas.Mounted? && !canvas.isEmpty && st.frames[st.cursor] == Empty
    ensures r.Load? ==> r.slot == st.frames[st.cursor]
  {
    match canvas
    case Unmounted => Skip
    case Mounted(isEmpty) =>
      if !isEmpty && st.frames[st.cursor].Empty? then Clear else Load(st.frames[st.cursor])
  }

  /** A filled slot is always loaded, whatever the canvas shows. */
  lemma FilledSlotIsLoaded(isEmpty: bool, st: Store)
    requires st.cursor < |st.frames|
    requires st.frames[st.cursor].Filled?
    ensures RenderOnCursorChange(Mounted(isEmpty), st) == Load(st.frames[st.cursor])
  {
  }

  /**
   What the canvas holds after `action`, given that it held `before`; `Empty` is
   a blank canvas. Loading the `null` slot is a no-op: the canvas library returns
   at once on a missing document, so the canvas keeps what it had.
   */
  function Shown(before: Slot, action: RenderAction): Slot
  {
    match action
    case Skip => before
    case Clear => Empty
    case Load(s) => if s == Empty then before else s
  }

  /**
   On a mounted canvas the decision always leaves the canvas showing the current
   slot: an empty slot blanks a drawn canvas, a blank canvas stays blank, and a
   filled slot is loaded. The emptiness test is what makes this hold, because
   loading the `null` slot alone would leave a drawn canvas as it was.
   */
  lemma RenderShowsCurrentSlot(isEmpty: bool, before: Slot, st: Store)
    requires st.cursor < |st.frames|
    requires isEmpty ==> before == Empty
    ensures Shown(before, RenderOnCursorChange(Mounted(isEmpty), st)) == st.frames[st.cursor]
  {
  }
}
