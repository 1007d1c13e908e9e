/** The script itself: its module-level globals and the windows' mutable attributes
    as fields of one object, and each entry point as a method that changes them in
    place. Every method is proved to do what the matching function of `Windows`
    says, from which the properties proved there carry over. */
module Script {
  import opened Geometry
  import opened Windows

  class Desktop {
    var windows: seq<Win>
    var ids: map<string, nat>
    var highestZ: int
    var dragged: Option<nat>
    var offsetX: int
    var offsetY: int

    function State(): Desk
      reads this
    {
      Desk(windows, ids, highestZ, dragged, offsetX, offsetY)
    }

    predicate Valid()
      reads this
    {
      Wf(State())
    }

    /** The page as loaded: `highestZ` is 100, nothing is dragged and both offsets
        are 0. The markup is taken to mark at most one window focused and to give
        none an inline z-index above 100. */
    constructor (initial: seq<Win>, names: map<string, nat>)
      requires forall id :: id in names ==> names[id] < |initial|
      requires AtMostOneFocused(initial)
      requires forall i :: 0 <= i < |initial| ==> initial[i].zIndex <= InitialZ
      ensures Valid() && BelowCounter(State())
      ensures State() == Desk(initial, names, InitialZ, None, 0, 0)
    {
      windows := initial;
      ids := names;
      highestZ := InitialZ;
      dragged := None;
      offsetX := 0;
      offsetY := 0;
    }

    /** The `forEach` at the start of `focusWindow`, one window at a time. */
    method RemoveFocusedClass()
      requires Valid()
      modifies this
      ensures Valid()
      ensures State() == old(State()).(windows := Unfocused(old(windows)))
    {
      var k := 0;
      while k < |windows|
        invariant 0 <= k <= |windows| == |old(windows)|
        invariant forall i :: 0 <= i < k ==> windows[i] == old(windows[i]).(focused := false)
        invariant forall i :: k <= i < |windows| ==> windows[i] == old(windows[i])
        invariant ids == old(ids) && highestZ == old(highestZ) && dragged == old(dragged)
        invariant offsetX == old(offsetX) && offsetY == old(offsetY)
      {
        windows := windows[k := windows[k].(focused := false)];
        k := k + 1;
      }
      assert windows == Unfocused(old(windows));
    }

    /** `focusWindow(win)`: the class moves to `t`, which gets the next z-index. */
    method FocusWindow(t: nat)
      requires Valid() && t < |windows|
      modifies this
      ensures Valid()
      ensures State() == Focus(old(State()), t)
    {
      RemoveFocusedClass();
      windows := windows[t := windows[t].(focused := true)];
      highestZ := highestZ + 1;
      windows := windows[t := windows[t].(zIndex := highestZ)];
    }

    /** `openWindow(id)`. */
    method OpenWindow(id: string)
      requires Valid()
      modifies this
      ensures Valid()
      ensures State() == Open(old(State()), id)
    {
      if id !in ids {
        return;
      }
      var t := ids[id];
      windows := windows[t := windows[t].(visible := true)];
      windows := windows[t := windows[t].(active := true)];
      FocusWindow(t);
    }

    /** `closeWindow(id)`. */
    method CloseWindow(id: string)
      requires Valid()
      modifies this
      ensures Valid()
      ensures State() == Close(old(State()), id)
    {
      if id !in ids {
        return;
      }
      var t := ids[id];
      windows := windows[t := windows[t].(visible := false)];
      windows := windows[t := windows[t].(active := false)];
    }

    /** The `mousedown` listener. On a header outside every window, `focusWindow(null)`
        removes the class everywhere and then fails, so the handler stops there. */
    method MouseDown(h: Hit, cx: int, cy: int, rectLeft: int, rectTop: int)
      requires Valid() && HitOk(|windows|, h)
      modifies this
      ensures Valid()
      ensures State() == Press(old(State()), h, cx, cy, rectLeft, rectTop)
    {
      if !h.onHeader {
        return;
      }
      dragged := h.window;
      if h.window.None? {
        RemoveFocusedClass();
        return;
      }
      var t := h.window.value;
      FocusWindow(t);
      offsetX := cx - rectLeft;
      offsetY := cy - rectTop;
      windows := windows[t := windows[t].(noTransition := true)];
    }

    /** The `mousemove` listener, given the desktop's left edge and width and the
        dragged window's width. */
    method MouseMove(cx: int, cy: int, deskLeft: int, deskWidth: int, winWidth: int)
      requires Valid()
      modifies this
      ensures Valid()
      ensures State() == Move(old(State()), cx, cy, deskLeft, deskWidth, winWidth)
    {
      if dragged.None? {
        return;
      }
      var t := dragged.value;
      var p := Clamp(cx - offsetX, cy - offsetY, deskLeft, deskWidth, winWidth);
      windows := windows[t := windows[t].(left := p.left)];
      windows := windows[t := windows[t].(top := p.top)];
    }

    /** The `mouseup` listener. */
    method MouseUp()
      requires Valid()
      modifies this
      ensures Valid()
      ensures State() == Release(old(State()))
    {
      if dragged.Some? {
        var t := dragged.value;
        windows := windows[t := windows[t].(noTransition := false)];
        dragged := None;
      }
    }

    /** The `click` listener. */
    method ClickAt(h: Hit)
      requires Valid() && HitOk(|windows|, h)
      modifies this
      ensures Valid()
      ensures State() == Click(old(State()), h)
    {
      if h.window.Some? {
        FocusWindow(h.window.value);
      }
    }
  }
}

/** A client of the class: what a caller can conclude from the method contracts
    alone, for one drag of a window's header across a 1000-pixel-wide desktop. */
module Scenario {
  import opened Geometry
  import opened Windows
  import opened Script

  method DragAboutWindow() {
    var closed := Win(false, false, false, 0, 0, 0, false);
    var d := new Desktop([closed, closed], map["win-about" := 0, "win-notes" := 1]);
    d.OpenWindow("win-about");
    assert d.windows[0].visible && d.windows[0].focused && d.highestZ == 101;
    d.OpenWindow("win-notes");
    assert !d.windows[0].focused && d.windows[1].zIndex == 102;
    d.OpenWindow("no-such-window");
    assert d.highestZ == 102;
    d.MouseDown(Hit(true, Some(0)), 120, 50, 100, 40);
    assert d.dragged == Some(0) && d.offsetX == 20 && d.offsetY == 10;
    assert d.windows[0].zIndex == 103 > d.windows[1].zIndex;
    d.MouseMove(5, 5, 0, 1000, 400);
    assert d.windows[0].left == 0 && d.windows[0].top == TopBar;
    d.MouseMove(2000, 300, 0, 1000, 400);
    assert d.windows[0].left == 600 && d.windows[0].top == 290;
    d.MouseUp();
    assert d.dragged.None?;
    d.MouseMove(0, 0, 0, 1000, 400);
    assert d.windows[0].left == 600;
    d.CloseWindow("win-about");
    assert !d.windows[0].visible && d.windows[0].zIndex == 103;
  }
}
