/**
 Sequences of clicks on the editor. A click on the timeline list can only name a
 frame that the list is showing, and the toolbar has no eraser button, so a
 session is a sequence of clicks each of which is available in the state the
 previous ones left.
 */
module Session {
  import opened FrameStore
  import opened AnimationEditor

  /** One click, with the canvas snapshot the serialiser returns while it is handled. */
  datatype Action =
    | Timeline(timelineButton: TimelineButton, snap: Snapshot)
    | Toolbar(toolbarButton: ToolbarButton, snap: Snapshot)

  /** The clicks that add a frame. */
  predicate AddsFrame(a: Action) {
    a.Timeline? && (a.timelineButton == NewKeyframe || a.timelineButton == DupKeyframe)
  }

  /**
   A click the screen can produce: a timeline-list entry exists for every index
   it names, and the toolbar shows only the select and brush buttons.
   */
  predicate OnScreen(ed: Editor, a: Action) {
    && (a.Timeline? && a.timelineButton.TimelineKeyframe? ==> a.timelineButton.index < |ed.store.frames|)
    && (a.Toolbar? ==> a.toolbarButton != EraserButton)
  }

  /** One click handled to completion. */
  function Step(ed: Editor, a: Action): (r: Editor)
    requires ed.store.cursor < |ed.store.frames|
    ensures |r.store.frames| == |ed.store.frames| + (if AddsFrame(a) then 1 else 0)
    ensures r.store.frames[ed.store.cursor] == Filled(a.snap)
    ensures Valid(ed.store) && OnScreen(ed, a) ==> Valid(r.store)
    ensures DrawingImpliesBrush(ed) ==> DrawingImpliesBrush(r)
    ensures DrawingIffBrush(ed) && OnScreen(ed, a) ==> DrawingIffBrush(r)
  {
    match a
    case Timeline(b, snap) => SelectTimelineButton(ed, b, snap)
    case Toolbar(b, snap) => SelectToolbarButton(ed, b, snap)
  }

  /**
   The sessions `Run` is defined on: before each click the cursor is inside the
   list and the click is one the screen offers. `OnScreenIsAdmissible` derives
   this from a valid start and the click condition alone.
   */
  predicate Admissible(ed: Editor, acts: seq<Action>)
    decreases |acts|
  {
    |acts| == 0 ||
    (ed.store.cursor < |ed.store.frames| && OnScreen(ed, acts[0]) && Admissible(Step(ed, acts[0]), acts[1..]))
  }

  /**
   Every click of `acts` is one the screen offers in the state the earlier ones
   left. Unlike `Admissible`, this says nothing about the cursor: it is only a
   condition on the clicks.
   */
  predicate AllOnScreen(ed: Editor, acts: seq<Action>)
    decreases |acts|
  {
    |acts| == 0 ||
    (OnScreen(ed, acts[0]) &&
     (ed.store.cursor < |ed.store.frames| ==> AllOnScreen(Step(ed, acts[0]), acts[1..])))
  }

  /** From a valid state, clicks the screen offers keep the cursor in range before each click. */
  lemma {:induction false} OnScreenIsAdmissible(ed: Editor, acts: seq<Action>)
    requires Valid(ed.store)
    requires AllOnScreen(ed, acts)
    ensures Admissible(ed, acts)
    decreases |acts|
  {
    if |acts| > 0 {
      OnScreenIsAdmissible(Step(ed, acts[0]), acts[1..]);
    }
  }

  /** The editor after a whole session. */
  function Run(ed: Editor, acts: seq<Action>): (r: Editor)
    requires Admissible(ed, acts)
    ensures Valid(ed.store) ==> Valid(r.store)
    ensures |r.store.frames| >= |ed.store.frames|
    ensures DrawingImpliesBrush(ed) ==> DrawingImpliesBrush(r)
    ensures DrawingIffBrush(ed) ==> DrawingIffBrush(r)
    decreases |acts|
  {
    if |acts| == 0 then ed else Run(Step(ed, acts[0]), acts[1..])
  }

  /** How many frames a session adds. */
  function Insertions(acts: seq<Action>): nat
  {
    if |acts| == 0 then 0 else (if AddsFrame(acts[0]) then 1 else 0) + Insertions(acts[1..])
  }

  /** No click removes a frame: a session grows the list by exactly its new/duplicate clicks. */
  lemma {:induction false} RunLength(ed: Editor, acts: seq<Action>)
    requires Admissible(ed, acts)
    ensures |Run(ed, acts).store.frames| == |ed.store.frames| + Insertions(acts)
    decreases |acts|
  {
    if |acts| > 0 {
      RunLength(Step(ed, acts[0]), acts[1..]);
    }
  }

  /** A session split in two: the first part is itself a session, and the second continues from it. */
  lemma {:induction false} RunSplit(ed: Editor, p: seq<Action>, q: seq<Action>)
    requires Admissible(ed, p + q)
    ensures Admissible(ed, p)
    ensures Admissible(Run(ed, p), q)
    ensures Run(ed, p + q) == Run(Run(ed, p), q)
    decreases |p|
  {
    if |p| > 0 {
      assert (p + q)[0] == p[0];
      assert (p + q)[1..] == p[1..] + q;
      RunSplit(Step(ed, p[0]), p[1..], q);
    } else {
      assert p + q == q;
    }
  }

  /** Along a session the number of frames never goes down. */
  lemma FramesNeverShrink(ed: Editor, acts: seq<Action>, k: nat)
    requires Admissible(ed, acts)
    requires k <= |acts|
    ensures Admissible(ed, acts[..k])
    ensures |Run(ed, acts[..k]).store.frames| <= |Run(ed, acts).store.frames|
  {
    assert acts == acts[..k] + acts[k..];
    RunSplit(ed, acts[..k], acts[k..]);
  }

  /**
   The state the editor reaches from start-up through clicks the screen offers
   is valid, has free drawing on exactly while the brush is selected, and has
   one frame more than the start per frame added.
   */
  lemma Reachable(acts: seq<Action>)
    requires AllOnScreen(InitEditor(), acts)
    ensures Admissible(InitEditor(), acts)
    ensures Valid(Run(InitEditor(), acts).store)
    ensures DrawingIffBrush(Run(InitEditor(), acts))
    ensures |Run(InitEditor(), acts).store.frames| == 1 + Insertions(acts)
  {
    OnScreenIsAdmissible(InitEditor(), acts);
    RunLength(InitEditor(), acts);
  }

  /** Not only the last state: every intermediate state of such a session is valid too. */
  lemma ReachableAtEveryStep(acts: seq<Action>, k: nat)
    requires AllOnScreen(InitEditor(), acts)
    requires k <= |acts|
    ensures Admissible(InitEditor(), acts[..k])
    ensures Valid(Run(InitEditor(), acts[..k]).store)
    ensures DrawingIffBrush(Run(InitEditor(), acts[..k]))
  {
    Reachable(acts);
    FramesNeverShrink(InitEditor(), acts, k);
  }
}
