/** Sequences of events fed to the window manager, and what holds after any of them. */
module Session {
  import opened Windows

  /** The entry points of the script: the two functions it exports on `window`
      and the four document listeners. */
  datatype Event =
    | OpenWindow(id: string)
    | CloseWindow(id: string)
    | MouseDown(hit: Hit, cx: int, cy: int, rectLeft: int, rectTop: int)
    | MouseMove(cx: int, cy: int, deskLeft: int, deskWidth: int, winWidth: int)
    | MouseUp
    | ClickAt(hit: Hit)

  /** The event's hit test names one of the `n` windows, if any. */
  predicate EventOk(n: nat, e: Event) {
    match e
    case MouseDown(h, _, _, _, _) => HitOk(n, h)
    case ClickAt(h) => HitOk(n, h)
    case _ => true
  }

  predicate AllOk(n: nat, evs: seq<Event>) {
    forall k :: 0 <= k < |evs| ==> EventOk(n, evs[k])
  }

  /** The window an event calls `focusWindow` on, if it does. */
  function FocusTarget(ids: map<string, nat>, e: Event): Option<nat> {
    match e
    case OpenWindow(id) => if id in ids then Some(ids[id]) else None
    case MouseDown(h, _, _, _, _) => if h.onHeader then h.window else None
    case ClickAt(h) => h.window
    case _ => None
  }

  /** A press on a header that lies in no window: the focus is cleared everywhere. */
  predicate ClearsFocus(e: Event) {
    e.MouseDown? && e.hit.onHeader && e.hit.window.None?
  }

  /** A press on a header or a release: the only events that set the drag target. */
  predicate SetsDrag(e: Event) {
    e.MouseUp? || (e.MouseDown? && e.hit.onHeader)
  }

  /** The drag target that a drag-setting event leaves behind. */
  function DragSetTo(e: Event): Option<nat>
    requires SetsDrag(e)
  {
    if e.MouseUp? then None else e.hit.window
  }

  function Step(d: Desk, e: Event): (r: Desk)
    requires Wf(d) && EventOk(|d.windows|, e)
    ensures Wf(r) && |r.windows| == |d.windows| && r.ids == d.ids
    ensures r.highestZ == d.highestZ + (if FocusTarget(d.ids, e).Some? then 1 else 0)
    ensures SetsDrag(e) ==> r.dragged == DragSetTo(e)
    ensures !SetsDrag(e) ==> r.dragged == d.dragged
    ensures FocusTarget(d.ids, e).Some? ==>
              var t := FocusTarget(d.ids, e).value;
              forall i :: 0 <= i < |r.windows| ==> (r.windows[i].focused <==> i == t)
    ensures ClearsFocus(e) ==> forall i :: 0 <= i < |r.windows| ==> !r.windows[i].focused
    ensures FocusTarget(d.ids, e).None? && !ClearsFocus(e) ==>
              forall i :: 0 <= i < |r.windows| ==>
                r.windows[i].focused == d.windows[i].focused && r.windows[i].zIndex == d.windows[i].zIndex
  {
    match e
    case OpenWindow(id) => Open(d, id)
    case CloseWindow(id) => Close(d, id)
    case MouseDown(h, cx, cy, rl, rt) => Press(d, h, cx, cy, rl, rt)
    case MouseMove(cx, cy, dl, dw, ww) => Move(d, cx, cy, dl, dw, ww)
    case MouseUp => Release(d)
    case ClickAt(h) => Click(d, h)
  }

  /** The state after the events `evs`, in order. */
  function Run(d: Desk, evs: seq<Event>): (r: Desk)
    requires Wf(d) && AllOk(|d.windows|, evs)
    ensures Wf(r) && |r.windows| == |d.windows| && r.ids == d.ids
    ensures r.highestZ == d.highestZ + FocusCount(d.ids, evs)
    decreases |evs|
  {
    if evs == [] then d
    else
      var n := |evs| - 1;
      assert AllOk(|d.windows|, evs[..n]);
      Step(Run(d, evs[..n]), evs[n])
  }

  /** How many of the events call `focusWindow` on a window. */
  function FocusCount(ids: map<string, nat>, evs: seq<Event>): nat
    decreases |evs|
  {
    if evs == [] then 0
    else
      var n := |evs| - 1;
      FocusCount(ids, evs[..n]) + (if FocusTarget(ids, evs[n]).Some? then 1 else 0)
  }

  /** The drag target after the events, read off the events alone: the window of the
      last header press or release, or the starting target if there was none. */
  function DragAfter(start: Option<nat>, evs: seq<Event>): Option<nat>
    decreases |evs|
  {
    if evs == [] then start
    else
      var n := |evs| - 1;
      if SetsDrag(evs[n]) then DragSetTo(evs[n]) else DragAfter(start, evs[..n])
  }

  /** The drag state is decided by presses on headers and releases alone: opening,
      closing, clicking and moving never start or end a drag. */
  lemma {:induction false} RunDragIsDragAfter(d: Desk, evs: seq<Event>)
    requires Wf(d) && AllOk(|d.windows|, evs)
    ensures Run(d, evs).dragged == DragAfter(d.dragged, evs)
    decreases |evs|
  {
    if evs != [] {
      var n := |evs| - 1;
      assert AllOk(|d.windows|, evs[..n]);
      RunDragIsDragAfter(d, evs[..n]);
    }
  }

  /** Starting idle, a window is being dragged only if a press landed on its header
      and no release and no other header press came after it. */
  lemma {:induction false} DragNeedsHeaderPress(d: Desk, evs: seq<Event>)
    requires Wf(d) && AllOk(|d.windows|, evs) && d.dragged.None?
    ensures Run(d, evs).dragged.Some? ==>
              exists k :: 0 <= k < |evs| && evs[k].MouseDown? && evs[k].hit.onHeader
                          && evs[k].hit.window == Run(d, evs).dragged
                          && forall j :: k < j < |evs| ==> !SetsDrag(evs[j])
  {
    RunDragIsDragAfter(d, evs);
    DragAfterHasPress(evs);
  }

  lemma {:induction false} DragAfterHasPress(evs: seq<Event>)
    ensures DragAfter(None, evs).Some? ==>
              exists k :: 0 <= k < |evs| && evs[k].MouseDown? && evs[k].hit.onHeader
                          && evs[k].hit.window == DragAfter(None, evs)
                          && forall j :: k < j < |evs| ==> !SetsDrag(evs[j])
    decreases |evs|
  {
    if evs != [] {
      var n := |evs| - 1;
      if SetsDrag(evs[n]) {
        if DragAfter(None, evs).Some? {
          assert evs[n].MouseDown? && evs[n].hit.onHeader && evs[n].hit.window == DragAfter(None, evs);
        }
      } else {
        DragAfterHasPress(evs[..n]);
        if DragAfter(None, evs).Some? {
          var k :| 0 <= k < n && evs[..n][k].MouseDown? && evs[..n][k].hit.onHeader
                   && evs[..n][k].hit.window == DragAfter(None, evs[..n])
                   && forall j :: k < j < n ==> !SetsDrag(evs[..n][j]);
          assert evs[k] == evs[..n][k];
          assert forall j :: k < j < |evs| ==> !SetsDrag(evs[j]) by {
            forall j | k < j < |evs| ensures !SetsDrag(evs[j]) {
              if j < n { assert evs[j] == evs[..n][j]; }
            }
          }
        }
      }
    }
  }

  /** No event pushes a window's z-index above the counter. */
  lemma {:induction false} RunKeepsBelowCounter(d: Desk, evs: seq<Event>)
    requires Wf(d) && AllOk(|d.windows|, evs) && BelowCounter(d)
    ensures BelowCounter(Run(d, evs))
    decreases |evs|
  {
    if evs != [] {
      var n := |evs| - 1;
      assert AllOk(|d.windows|, evs[..n]);
      RunKeepsBelowCounter(d, evs[..n]);
      StepKeepsBelowCounter(Run(d, evs[..n]), evs[n]);
    }
  }

  lemma StepKeepsBelowCounter(d: Desk, e: Event)
    requires Wf(d) && EventOk(|d.windows|, e) && BelowCounter(d)
    ensures BelowCounter(Step(d, e))
  {
  }

  /** After the last focusing event, the window it focused is the only focused one and,
      when no z-index was above the counter at the start, it is strictly on top of every
      other window, whatever events that neither focus nor clear focus followed. */
  lemma {:induction false} LastFocusedIsOnTop(d: Desk, evs: seq<Event>, k: nat, w: nat)
    requires Wf(d) && AllOk(|d.windows|, evs)
    requires k < |evs| && FocusTarget(d.ids, evs[k]) == Some(w)
    requires forall j :: k < j < |evs| ==> FocusTarget(d.ids, evs[j]).None? && !ClearsFocus(evs[j])
    ensures var r := Run(d, evs);
            && w < |r.windows|
            && (forall i :: 0 <= i < |r.windows| ==> (r.windows[i].focused <==> i == w))
            && (BelowCounter(d) ==>
                  forall i :: 0 <= i < |r.windows| && i != w ==> r.windows[i].zIndex < r.windows[w].zIndex)
    decreases |evs|
  {
    var n := |evs| - 1;
    var prefix := evs[..n];
    assert AllOk(|d.windows|, prefix);
    var before := Run(d, prefix);
    assert Run(d, evs) == Step(before, evs[n]);
    if n == k {
      if BelowCounter(d) {
        RunKeepsBelowCounter(d, prefix);
        StepFocusIsOnTop(before, evs[n], w);
      }
    } else {
      assert forall j :: k < j < |prefix| ==> prefix[j] == evs[j];
      LastFocusedIsOnTop(d, prefix, k, w);
    }
  }

  lemma StepFocusIsOnTop(d: Desk, e: Event, w: nat)
    requires Wf(d) && EventOk(|d.windows|, e) && BelowCounter(d) && FocusTarget(d.ids, e) == Some(w)
    ensures w < |d.windows|
    ensures forall i :: 0 <= i < |d.windows| && i != w ==> Step(d, e).windows[i].zIndex < Step(d, e).windows[w].zIndex
  {
  }
}
