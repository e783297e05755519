# Frame store of the webanim8 animation editor, in Dafny

webanim8 is a browser animation editor. The user draws on a canvas and captures each
drawing as a frame on a timeline. Everything the editor component (`src/App.tsx`) does
with frames is a small state machine. Its state is an ordered list of frame slots and a
cursor that names the frame on screen. Each slot is either empty (`null` in the component)
or holds a canvas snapshot.

This project states that state machine as pure Dafny functions and proves its properties.

- `frame_store.dfy` (module `FrameStore`): the slots, the cursor and the validity invariant
  (at least one frame, cursor in range). It also holds the primitive operations: capture the
  canvas into the current slot, move the cursor, insert an empty or a duplicated slot after
  the cursor.
- `render.dfy` (module `CanvasRender`): what the editor does to the canvas when the cursor
  changes. It either wipes a drawn canvas for an empty slot or loads the current slot.
- `editor.dfy` (module `AnimationEditor`): the two click dispatchers. The timeline one
  handles new, duplicate, play and a click on a frame in the list. The toolbar one handles
  select, brush and eraser. Each captures the current frame before its own change. This
  module also holds the cursor-change effect that follows a click.
- `session.dfy` (module `Session`): whole sequences of clicks. A click on the timeline list
  can only name a frame that the list shows, and the toolbar shows no eraser button. Over
  such sessions the invariant holds, and the number of frames grows by exactly the number
  of new/duplicate clicks.

Each React handler's batched state updates are one atomic transition here. The capture and
the insertion both act on the cursor value from before the click. They run in one batch, so
the snapshot that a duplicate inserts is the same one its capture wrote. The render effect
depends only on the cursor value: it runs when a click changes the cursor, and it sees the
frames as that click left them.

The canvas library is not modelled. A snapshot is an opaque type (`FrameStore.Snapshot`).
The serialiser's output at the moment of a click is a parameter. The canvas's "is empty"
flag and whether the canvas exists yet are inputs (`CanvasRender.CanvasState`).

`moveToFrame` (src/App.tsx:35-37) does not check its index. So `FrameStore.MoveTo`
accepts any index, and its contract says exactly when the result is valid.

## Model

| member | source | states |
|---|---|---|
| FrameStore.Init | src/App.tsx:20-21 | the editor starts valid, with exactly one empty slot and the cursor on it |
| FrameStore.Capture | src/App.tsx:27-33 | saving the frame puts the snapshot in the current slot; the length, the cursor and every other slot are unchanged, and validity is kept |
| FrameStore.InsertAt | src/App.tsx:43 | `splice(i, 0, x)` within the list: one longer, `x` at `i`, the prefix kept, the later slots one index up |
| FrameStore.MoveTo | src/App.tsx:35-37 | moving the cursor keeps the frames; the result is valid exactly when the index names an existing frame |
| FrameStore.AddNewFrame | src/App.tsx:39-48 | a new frame: one slot longer, slots up to the cursor unchanged, later slots one index up, the cursor on the new empty slot and in range |
| FrameStore.DuplicateFrame | src/App.tsx:50-59 | a duplicated frame has the shape of a new frame, but the new current slot holds the canvas snapshot |
| FrameStore.InsertAfterCursorLosesNothing | src/App.tsx:39-59 | deleting the slot just inserted after the cursor gives back the list as it was, so an insertion drops and reorders nothing |
| CanvasRender.RenderOnCursorChange | src/App.tsx:138-149 | the canvas is wiped exactly when it exists, is not empty and the current slot is empty; nothing happens exactly when it does not exist yet; otherwise the current slot is loaded, and that includes an empty slot on an empty canvas |
| CanvasRender.FilledSlotIsLoaded | src/App.tsx:140-148 | a filled slot is always loaded, whether or not the canvas was empty |
| CanvasRender.RenderShowsCurrentSlot | src/App.tsx:138-149 | on an existing canvas, carrying out the decision leaves the canvas showing exactly the current slot, provided a canvas reported empty holds nothing; loading the `null` slot alone changes nothing, so the emptiness test at line 140 is what wipes a drawn canvas |
| AnimationEditor.InitEditor | src/App.tsx:16-21 | the mounted editor has the initial store and the brush tool, with free drawing on (set at line 158), so drawing mode is on exactly while the brush is selected |
| AnimationEditor.SelectTimelineButton | src/App.tsx:75-92 | every timeline click captures first: the old current slot holds the snapshot, earlier slots are unchanged, tool and drawing mode are untouched, and nothing shrinks. Play changes nothing beyond the capture. A frame click keeps the captured frames and sets the cursor. New and duplicate are exactly the new-frame and duplicate-frame insertions applied after the capture, so later slots move up one and the length grows by one; duplicate leaves the new current slot equal to the captured one. From a valid state the result is valid exactly when a frame click names an existing frame |
| AnimationEditor.SelectToolbarButton | src/App.tsx:100-117 | a toolbar click changes the frames only by the capture. Drawing mode ends on exactly for the brush. Select picks the select tool, brush picks the brush, and eraser keeps the tool. Drawing mode never ends on without the brush, and after select or brush it is on exactly while the brush is selected |
| AnimationEditor.CursorEffect | src/App.tsx:138-149 | the effect does nothing when the cursor did not change. When it did, the effect is the cursor-change decision on the frames the click left: it wipes a drawn canvas exactly when the new current slot is empty, and otherwise loads that slot |
| AnimationEditor.NewFrameRender | src/App.tsx:39-48 | after a new-frame click a drawn canvas is wiped, and a blank one is loaded with the empty slot |
| AnimationEditor.DuplicateRender | src/App.tsx:50-59 | after a duplicate click the canvas is reloaded with exactly the snapshot just captured |
| AnimationEditor.NoCursorChangeNoRender | src/App.tsx:79-81 | play, and a click on the frame already current, leave the canvas alone |
| AnimationEditor.JumpRendersTarget | src/App.tsx:88-89 | clicking another frame renders that frame's content from before the click, because the capture only wrote the frame being left |
| AnimationEditor.ToolbarIdempotent | src/App.tsx:100-117 | pressing the same toolbar button twice over the same canvas equals pressing it once |
| Session.Step | src/App.tsx:75-117 | one click adds one frame exactly for new/duplicate and none otherwise. It always captures into the old current slot, keeps validity for clicks the screen offers, never turns drawing on without the brush, and for clicks the screen offers keeps drawing mode on exactly while the brush is selected |
| Session.Run | src/App.tsx:222-230 | on a session whose clicks the screen offers and that keeps the cursor in the list before each click, a valid start gives a valid end. The length never decreases, and if drawing mode was on exactly with the brush at the start, it still is at the end |
| Session.OnScreenIsAdmissible | src/App.tsx:222-230 | from a valid state, a sequence of clicks the screen offers (frame clicks from the rendered list, no eraser) keeps the cursor inside the list before every click, with no further assumption |
| Session.RunLength | src/App.tsx:27-59 | no operation removes a slot: a session ends with exactly as many more frames as it had new/duplicate clicks |
| Session.FramesNeverShrink | src/App.tsx:27-59 | at every point along a session the frame count is at most the final one |
| Session.Reachable | src/App.tsx:222-230 | the state reached from start-up by any sequence of clicks the screen offers is valid, has drawing mode on exactly while the brush is selected, and has one frame plus one per new/duplicate click |
| Session.ReachableAtEveryStep | src/App.tsx:222-230 | every intermediate state of such a session is valid too, with drawing mode on exactly while the brush is selected |

## Left out

- Playback (`playAnimation`, src/App.tsx:124-126) and onion skin (`renderOnionSkin`, src/App.tsx:133-135) have empty bodies. In the model the play click does only its capture, and there is no onion-skin state.
- The eraser toolbar case (src/App.tsx:113-115) is modelled in `AnimationEditor.SelectToolbarButton`, but no button produces it (src/App.tsx:262-299), so sessions in `Session` leave it out. After an eraser press with the brush selected, drawing is off while the brush stays selected.
- Frame deletion, undo history, project save/import and GIF export have no code in the component, so they are not modelled.
- The canvas library's calls (serialise, load, render, remove objects, emptiness test, background colour, dispose) are outside the model. Snapshots are opaque. Emptiness, existence and the serialised snapshot are inputs.
- `CanvasRender.Shown` treats loading the `null` slot as leaving the canvas as it was. The canvas library returns at once on a missing document; the component does not state this itself.
- React scheduling is not modelled: batching, functional updaters, effect timing, closures. Each handler is one atomic transition, and the cursor effect runs after it.
- The capture, insertion and render operations require the cursor to be inside the list. A JavaScript array write past its end would create holes, and that is not modelled. `Session.ReachableAtEveryStep` shows that no state reached from start-up by clicks the screen offers has the cursor outside the list.
- The JSX layout, icons, background colour input, brush width slider, brush colour input and frame-rate input (src/App.tsx:167-359) are not modelled. They change no frame-store state, and the frame rate feeds nothing implemented.
- The component's one-time canvas setup and teardown (src/App.tsx:152-165) are not modelled. Only their effect on drawing mode is, in `AnimationEditor.InitEditor`.
