/** The window manager's state as a value, and what each entry point does to it.
    These functions are the specification the `Desktop` class is proved against. */
module Windows {
  import opened Geometry

  datatype Option<T> = None | Some(value: T)

  /** The counter's start value. */
  const InitialZ: int := 100

  /** One `.window` element, reduced to what the script reads and writes:
      `display` (visible), the `active` and `focused` classes, the inline
      `z-index`, the inline `left`/`top`, and whether the inline transition is
      switched off for a drag. An unset inline z-index is 0. */
  datatype Win = Win(visible: bool, active: bool, focused: bool, zIndex: int,
                     left: int, top: int, noTransition: bool)

  /** The whole state: the windows in document order, the element ids that name
      them, and the script's globals `highestZ`, `draggedElement` (an index, or
      None for null), `offsetX` and `offsetY`. */
  datatype Desk = Desk(windows: seq<Win>, ids: map<string, nat>, highestZ: int,
                       dragged: Option<nat>, offsetX: int, offsetY: int)

  /** What the hit test reports for the target of a pointer event: whether it lies
      inside a `.window-header`, and the nearest enclosing `.window`, if any. */
  datatype Hit = Hit(onHeader: bool, window: Option<nat>)

  predicate AtMostOneFocused(ws: seq<Win>) {
    forall i, j :: 0 <= i < |ws| && 0 <= j < |ws| && ws[i].focused && ws[j].focused ==> i == j
  }

  /** The invariant every entry point keeps. */
  predicate Wf(d: Desk) {
    && (forall id :: id in d.ids ==> d.ids[id] < |d.windows|)
    && (d.dragged.Some? ==> d.dragged.value < |d.windows|)
    && d.highestZ >= InitialZ
    && AtMostOneFocused(d.windows)
  }

  predicate HitOk(n: nat, h: Hit) {
    h.window.Some? ==> h.window.value < n
  }

  /** No window's z-index is above the counter: the next focus puts its window on top. */
  predicate BelowCounter(d: Desk) {
    forall i :: 0 <= i < |d.windows| ==> d.windows[i].zIndex <= d.highestZ
  }

  /** The `forEach` of `focusWindow`: the `focused` class removed from every window. */
  function Unfocused(ws: seq<Win>): (r: seq<Win>)
    ensures |r| == |ws|
    ensures forall i :: 0 <= i < |r| ==> !r[i].focused
    ensures forall i :: 0 <= i < |r| ==> r[i] == ws[i].(focused := false)
  {
    seq(|ws|, i requires 0 <= i < |ws| => ws[i].(focused := false))
  }

  /** `focusWindow(win)`. */
  function Focus(d: Desk, t: nat): (r: Desk)
    requires Wf(d) && t < |d.windows|
    ensures Wf(r) && |r.windows| == |d.windows|
    ensures forall i :: 0 <= i < |r.windows| ==> (r.windows[i].focused <==> i == t)
    ensures r.highestZ == d.highestZ + 1 && r.windows[t].zIndex == r.highestZ
    ensures BelowCounter(d) ==>
              && BelowCounter(r)
              && forall i :: 0 <= i < |r.windows| && i != t ==> r.windows[i].zIndex < r.windows[t].zIndex
    ensures forall i :: 0 <= i < |r.windows| && i != t ==> r.windows[i] == d.windows[i].(focused := false)
    ensures r.windows[t] == d.windows[t].(focused := true, zIndex := d.highestZ + 1)
    ensures r.ids == d.ids && r.dragged == d.dragged && r.offsetX == d.offsetX && r.offsetY == d.offsetY
  {
    var ws := Unfocused(d.windows);
    var z := d.highestZ + 1;
    d.(windows := ws[t := ws[t].(focused := true, zIndex := z)], highestZ := z)
  }

  /** `openWindow(id)`: an unknown id changes nothing; otherwise the window is
      shown, marked active and focused. */
  function Open(d: Desk, id: string): (r: Desk)
    requires Wf(d)
    ensures Wf(r) && |r.windows| == |d.windows| && r.ids == d.ids
    ensures id !in d.ids ==> r == d
    ensures id in d.ids ==>
              var t := d.ids[id];
              && r.windows[t].visible && r.windows[t].active && r.windows[t].focused
              && r.highestZ == d.highestZ + 1 && r.windows[t].zIndex == r.highestZ
              && (forall i :: 0 <= i < |r.windows| && i != t ==> r.windows[i] == d.windows[i].(focused := false))
              && r.windows[t] == d.windows[t].(visible := true, active := true, focused := true,
                                               zIndex := d.highestZ + 1)
              && r.dragged == d.dragged && r.offsetX == d.offsetX && r.offsetY == d.offsetY
  {
    if id !in d.ids then d
    else
      var t := d.ids[id];
      Focus(d.(windows := d.windows[t := d.windows[t].(visible := true, active := true)]), t)
  }

  /** `closeWindow(id)`: an unknown id changes nothing; otherwise the window is
      hidden and not active, and nothing else changes. */
  function Close(d: Desk, id: string): (r: Desk)
    requires Wf(d)
    ensures Wf(r) && |r.windows| == |d.windows|
    ensures id !in d.ids ==> r == d
    ensures id in d.ids ==>
              var t := d.ids[id];
              && r.windows[t] == d.windows[t].(visible := false, active := false)
              && (forall i :: 0 <= i < |r.windows| && i != t ==> r.windows[i] == d.windows[i])
              && r.ids == d.ids && r.highestZ == d.highestZ && r.dragged == d.dragged
              && r.offsetX == d.offsetX && r.offsetY == d.offsetY
  {
    if id !in d.ids then d
    else
      var t := d.ids[id];
      d.(windows := d.windows[t := d.windows[t].(visible := false, active := false)])
  }

  /** The `mousedown` handler, at pointer (cx, cy), where (rectLeft, rectTop) is the
      on-screen top-left corner of the target's window. A press off any header changes
      nothing. A header outside every window makes `focusWindow(null)` clear the
      `focused` class everywhere before it fails on the null window, after the drag
      target was already set to null. */
  function Press(d: Desk, h: Hit, cx: int, cy: int, rectLeft: int, rectTop: int): (r: Desk)
    requires Wf(d) && HitOk(|d.windows|, h)
    ensures Wf(r) && |r.windows| == |d.windows| && r.ids == d.ids
    ensures !h.onHeader ==> r == d
    ensures h.onHeader && h.window.None? ==>
              r == d.(windows := Unfocused(d.windows), dragged := None)
    ensures h.onHeader && h.window.Some? ==>
              var t := h.window.value;
              && r.dragged == Some(t)
              && r.offsetX == cx - rectLeft && r.offsetY == cy - rectTop
              && r.windows[t] == d.windows[t].(focused := true, zIndex := d.highestZ + 1, noTransition := true)
              && r.highestZ == d.highestZ + 1
              && (forall i :: 0 <= i < |r.windows| && i != t ==> r.windows[i] == d.windows[i].(focused := false))
  {
    if !h.onHeader then d
    else if h.window.None? then d.(windows := Unfocused(d.windows), dragged := None)
    else
      var t := h.window.value;
      var f := Focus(d.(dragged := Some(t)), t);
      f.(offsetX := cx - rectLeft, offsetY := cy - rectTop,
         windows := f.windows[t := f.windows[t].(noTransition := true)])
  }

  /** The `mousemove` handler, at pointer (cx, cy), with the desktop's left edge and
      width and the dragged window's width. Idle: nothing changes. Dragging: the
      dragged window is placed at the clamped pointer-minus-offset position. */
  function Move(d: Desk, cx: int, cy: int, deskLeft: int, deskWidth: int, winWidth: int): (r: Desk)
    requires Wf(d)
    ensures Wf(r) && |r.windows| == |d.windows|
    ensures d.dragged.None? ==> r == d
    ensures d.dragged.Some? ==>
              var t := d.dragged.value;
              var p := Clamp(cx - d.offsetX, cy - d.offsetY, deskLeft, deskWidth, winWidth);
              && r.windows[t].left == p.left && r.windows[t].top == p.top
              && r.windows[t].(left := d.windows[t].left, top := d.windows[t].top) == d.windows[t]
              && (forall i :: 0 <= i < |r.windows| && i != t ==> r.windows[i] == d.windows[i])
              && r.ids == d.ids && r.highestZ == d.highestZ && r.dragged == d.dragged
              && r.offsetX == d.offsetX && r.offsetY == d.offsetY
              && r.windows[t].top >= TopBar
              && (winWidth <= deskWidth + deskLeft ==>
                    0 <= r.windows[t].left && r.windows[t].left + winWidth <= deskWidth + deskLeft)
  {
    match d.dragged
    case None => d
    case Some(t) =>
      var p := Clamp(cx - d.offsetX, cy - d.offsetY, deskLeft, deskWidth, winWidth);
      d.(windows := d.windows[t := d.windows[t].(left := p.left, top := p.top)])
  }

  /** The `mouseup` handler: always ends idle; when a window was dragged its
      transition is restored, and nothing else changes. */
  function Release(d: Desk): (r: Desk)
    requires Wf(d)
    ensures Wf(r) && r.dragged.None?
    ensures d.dragged.None? ==> r == d
    ensures |r.windows| == |d.windows| && r.ids == d.ids && r.highestZ == d.highestZ
    ensures r.offsetX == d.offsetX && r.offsetY == d.offsetY
    ensures forall i :: 0 <= i < |r.windows| && Some(i) != d.dragged ==> r.windows[i] == d.windows[i]
    ensures d.dragged.Some? ==>
              r.windows[d.dragged.value] == d.windows[d.dragged.value].(noTransition := false)
  {
    match d.dragged
    case None => d
    case Some(t) => d.(windows := d.windows[t := d.windows[t].(noTransition := false)], dragged := None)
  }

  /** The `click` handler: a click inside a window focuses it; elsewhere nothing changes. */
  function Click(d: Desk, h: Hit): (r: Desk)
    requires Wf(d) && HitOk(|d.windows|, h)
    ensures Wf(r) && |r.windows| == |d.windows| && r.ids == d.ids && r.dragged == d.dragged
    ensures h.window.None? ==> r == d
    ensures h.window.Some? ==> r == Focus(d, h.window.value)
  {
    if h.window.Some? then Focus(d, h.window.value) else d
  }

  /** Closing a window and opening it again brings it back where it was. */
  lemma CloseThenOpenKeepsPosition(d: Desk, id: string)
    requires Wf(d) && id in d.ids
    ensures var t := d.ids[id];
            var r := Open(Close(d, id), id);
            r.windows[t].left == d.windows[t].left && r.windows[t].top == d.windows[t].top
            && r.windows[t].visible && r.windows[t].focused
  {
  }

  /** Closing twice is the same as closing once. */
  lemma CloseIdempotent(d: Desk, id: string)
    requires Wf(d)
    ensures Close(Close(d, id), id) == Close(d, id)
  {
  }

  /** Opening a window that is already shown and active only focuses it again. */
  lemma OpenShownOnlyRefocuses(d: Desk, id: string)
    requires Wf(d) && id in d.ids && d.windows[d.ids[id]].visible && d.windows[d.ids[id]].active
    ensures Open(d, id) == Focus(d, d.ids[id])
  {
    var t := d.ids[id];
    assert d.windows[t := d.windows[t].(visible := true, active := true)] == d.windows;
  }

  /** In particular, a second open right after an open only focuses the window again. */
  lemma OpenTwiceOnlyRefocuses(d: Desk, id: string)
    requires Wf(d) && id in d.ids
    ensures Open(Open(d, id), id) == Focus(Open(d, id), d.ids[id])
  {
    OpenShownOnlyRefocuses(Open(d, id), id);
  }

  /** A press on a header followed by a release leaves the machine idle, with the
      windows and the counter as a focus of the pressed window leaves them (its
      transition restored) and the offsets recorded by the press. */
  lemma PressThenReleaseIsFocus(d: Desk, h: Hit, cx: int, cy: int, rectLeft: int, rectTop: int)
    requires Wf(d) && HitOk(|d.windows|, h) && h.onHeader && h.window.Some?
    ensures var r := Release(Press(d, h, cx, cy, rectLeft, rectTop));
            var f := Focus(d, h.window.value);
            var t := h.window.value;
            && r.windows[t] == f.windows[t].(noTransition := false)
            && (forall i :: 0 <= i < |r.windows| && i != t ==> r.windows[i] == f.windows[i])
            && r.highestZ == f.highestZ && r.dragged.None?
            && r.offsetX == cx - rectLeft && r.offsetY == cy - rectTop
  {
  }
}
