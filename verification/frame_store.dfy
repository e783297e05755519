/**
 The frame store of the animation editor: an ordered list of timeline slots,
 each either empty or holding a snapshot of the drawing canvas, together with
 the cursor that names the frame currently shown on the canvas.

 Every operation is a pure function from the store before a click to the store
 after it; the component's batched state updates collapse into one transition.
 */
module FrameStore {

  /** What the canvas serialiser produces for the whole drawing; the store never looks inside. */
  type Snapshot(==)

  /** One timeline slot: `null` in the component until the frame is first captured. */
  datatype Slot = Empty | Filled(snapshot: Snapshot)

  datatype Store = Store(frames: seq<Slot>, cursor: nat)

  /** The store's invariant: at least one frame, and the cursor names one of them. */
  predicate Valid(st: Store) {
    |st.frames| >= 1 && st.cursor < |st.frames|
  }

  /** The store the component starts with: one empty slot, shown. */
  function Init(): (st: Store)
    ensures Valid(st)
    ensures |st.frames| == 1 && st.frames[0] == Empty
    ensures st.cursor == 0
  {
    Store([Empty], 0)
  }

  /** Writes the canvas snapshot into the current slot and nowhere else. */
  function Capture(st: Store, snap: Snapshot): (r: Store)
    requires st.cursor < |st.frames|
    ensures |r.frames| == |st.frames|
    ensures r.cursor == st.cursor
    ensures r.frames[st.cursor] == Filled(snap)
    ensures forall i :: 0 <= i < |st.frames| && i != st.cursor ==> r.frames[i] == st.frames[i]
    ensures Valid(st) ==> Valid(r)
  {
    st.(frames := st.frames[st.cursor := Filled(snap)])
  }

  /**
   Array insertion of `x` before position `i`, as `splice(i, 0, x)` does when
   `i` is within the array: the prefix stays, the suffix moves up by one.
   */
  function InsertAt(s: seq<Slot>, i: nat, x: Slot): (r: seq<Slot>)
    requires i <= |s|
    ensures |r| == |s| + 1
    ensures r[i] == x
    ensures r[..i] == s[..i]
    ensures r[i + 1..] == s[i..]
    ensures forall j :: 0 <= j < i ==> r[j] == s[j]
    ensures forall j :: i <= j < |s| ==> r[j + 1] == s[j]
  {
    s[..i] + [x] + s[i..]
  }

  /** Removal of position `i`: the inverse of `InsertAt`, used only to state that insertion loses nothing. */
  function RemoveAt(s: seq<Slot>, i: nat): (r: seq<Slot>)
    requires i < |s|
    ensures |r| == |s| - 1
  {
    s[..i] + s[i + 1..]
  }

  lemma RemoveUndoesInsert(s: seq<Slot>, i: nat, x: Slot)
    requires i <= |s|
    ensures RemoveAt(InsertAt(s, i, x), i) == s
  {
  }

  /** Moves the cursor; the component does not check the index itself. */
  function MoveTo(st: Store, index: nat): (r: Store)
    ensures r.frames == st.frames
    ensures r.cursor == index
    ensures Valid(r) <==> |st.frames| >= 1 && index < |st.frames|
  {
    st.(cursor := index)
  }

  /**
   Inserts `slot` right after the current frame and moves onto it. The new-frame
   and duplicate-frame operations are this with an empty or a filled slot.
   */
  function InsertAfterCursor(st: Store, slot: Slot): (r: Store)
    requires st.cursor < |st.frames|
    ensures |r.frames| == |st.frames| + 1
    ensures r.cursor == st.cursor + 1
    ensures Valid(r)
    ensures r.frames[r.cursor] == slot
    ensures r.frames[..r.cursor] == st.frames[..r.cursor]
    ensures r.frames[r.cursor + 1..] == st.frames[r.cursor..]
  {
    MoveTo(st.(frames := InsertAt(st.frames, st.cursor + 1, slot)), st.cursor + 1)
  }

  /** addNewFrame: an empty slot after the cursor, which becomes current. */
  function AddNewFrame(st: Store): (r: Store)
    requires st.cursor < |st.frames|
    ensures |r.frames| == |st.frames| + 1
    ensures r.cursor == st.cursor + 1 && r.cursor < |r.frames|
    ensures r.frames[r.cursor] == Empty
    ensures forall j :: 0 <= j <= st.cursor ==> r.frames[j] == st.frames[j]
    ensures forall j :: st.cursor < j < |st.frames| ==> r.frames[j + 1] == st.frames[j]
  {
    InsertAfterCursor(st, Empty)
  }

  /** duplicateFrame: a slot holding the canvas snapshot after the cursor, which becomes current. */
  function DuplicateFrame(st: Store, snap: Snapshot): (r: Store)
    requires st.cursor < |st.frames|
    ensures |r.frames| == |st.frames| + 1
    ensures r.cursor == st.cursor + 1 && r.cursor < |r.frames|
    ensures r.frames[r.cursor] == Filled(snap)
    ensures forall j :: 0 <= j <= st.cursor ==> r.frames[j] == st.frames[j]
    ensures forall j :: st.cursor < j < |st.frames| ==> r.frames[j + 1] == st.frames[j]
  {
    InsertAfterCursor(st, Filled(snap))
  }

  /** Inserting after the cursor and deleting the new current slot gives back the old list. */
  lemma InsertAfterCursorLosesNothing(st: Store, slot: Slot)
    requires st.cursor < |st.frames|
    ensures RemoveAt(InsertAfterCursor(st, slot).frames, st.cursor + 1) == st.frames
  {
    RemoveUndoesInsert(st.frames, st.cursor + 1, slot);
  }
}
