/** The second client's overlay window (`ariel_client/src/gui/overlay_window.py`).
    In speech mode it shows a short newest-first list of translated messages,
    older ones fading out, and can be dragged and resized by its edges; in
    screen-text mode it shows translated patches over the captured region. */
module OverlayWindow {
  import opened Wrappers

  // ---------------------------------------------------------------- rectangles

  /** A Qt `QRect`, held as Qt holds it: the left, top, right and bottom
      coordinates, right and bottom inclusive. */
  datatype Rect = Rect(x1: int, y1: int, x2: int, y2: int)

  /** `QRect()`. */
  const NullRect: Rect := Rect(0, 0, -1, -1)

  function Width(r: Rect): int { r.x2 - r.x1 + 1 }
  function Height(r: Rect): int { r.y2 - r.y1 + 1 }

  /** `isNull()`: width and height both zero. */
  predicate IsNull(r: Rect) { Width(r) == 0 && Height(r) == 0 }

  /** `isValid()`: a rectangle with positive width and height. */
  predicate IsValid(r: Rect) { r.x1 <= r.x2 && r.y1 <= r.y2 }

  function Min(a: int, b: int): int { if a <= b then a else b }
  function Max(a: int, b: int): int { if a <= b then b else a }

  /** The edges of a rectangle taken in order, whichever way round it is held. */
  function LeftOf(r: Rect): int { if Width(r) < 0 then r.x2 else r.x1 }
  function RightOf(r: Rect): int { if Width(r) < 0 then r.x1 else r.x2 }
  function TopOf(r: Rect): int { if Height(r) < 0 then r.y2 else r.y1 }
  function BottomOf(r: Rect): int { if Height(r) < 0 then r.y1 else r.y2 }

  /** `a.united(b)` as Qt computes it: a null rectangle is ignored, and
      otherwise the result spans both, each taken with its edges in order. */
  function United(a: Rect, b: Rect): (r: Rect)
    ensures IsNull(a) ==> r == b
    ensures !IsNull(a) && IsNull(b) ==> r == a
  {
    if IsNull(a) then b
    else if IsNull(b) then a
    else Rect(Min(LeftOf(a), LeftOf(b)), Min(TopOf(a), TopOf(b)), Max(RightOf(a), RightOf(b)), Max(BottomOf(a), BottomOf(b)))
  }

  /** `rect.translated(dx, dy)`. */
  function Translated(r: Rect, dx: int, dy: int): Rect {
    Rect(r.x1 + dx, r.y1 + dy, r.x2 + dx, r.y2 + dy)
  }

  /** `outer` covers every point of `inner`. */
  predicate Encloses(outer: Rect, inner: Rect) {
    outer.x1 <= inner.x1 && outer.y1 <= inner.y1 && inner.x2 <= outer.x2 && inner.y2 <= outer.y2
  }

  /** `parent_rect` after the loop of `update_ocr_patches` has taken in the
      first `k` rectangles of `data`, starting from `QRect()`. */
  function UnionUpTo(data: seq<(string, Rect)>, k: nat): Rect
    requires k <= |data|
  {
    if k == 0 then NullRect else United(UnionUpTo(data, k - 1), data[k - 1].1)
  }

  /** All rectangles of `data` are valid. */
  predicate AllValid(data: seq<(string, Rect)>) {
    forall j :: 0 <= j < |data| ==> IsValid(data[j].1)
  }

  /** Valid rectangles are never null, so their union spans the lower of
      their left and top edges and the higher of their right and bottom edges. */
  lemma UnitedValid(a: Rect, b: Rect)
    requires IsValid(a) && IsValid(b)
    ensures United(a, b) == Rect(Min(a.x1, b.x1), Min(a.y1, b.y1), Max(a.x2, b.x2), Max(a.y2, b.y2))
    ensures IsValid(United(a, b)) && Encloses(United(a, b), a) && Encloses(United(a, b), b)
  {
  }

  lemma UnionOne(data: seq<(string, Rect)>)
    requires 1 <= |data|
    ensures UnionUpTo(data, 1) == data[0].1
  {
    assert UnionUpTo(data, 0) == NullRect;
  }

  /** The union of valid rectangles is valid. */
  lemma {:induction false} UnionValid(data: seq<(string, Rect)>, k: nat)
    requires 0 < k <= |data| && AllValid(data)
    ensures IsValid(UnionUpTo(data, k))
  {
    if k == 1 {
      UnionOne(data);
    } else {
      UnionValid(data, k - 1);
      UnitedValid(UnionUpTo(data, k - 1), data[k - 1].1);
    }
  }

  /** The union of valid rectangles encloses each of them. */
  lemma {:induction false} UnionEncloses(data: seq<(string, Rect)>, k: nat, i: nat)
    requires i < k <= |data| && AllValid(data)
    ensures Encloses(UnionUpTo(data, k), data[i].1)
  {
    if k == 1 {
      UnionOne(data);
      assert i == 0;
      assert UnionUpTo(data, k) == data[i].1;
    } else {
      UnionValid(data, k - 1);
      UnitedValid(UnionUpTo(data, k - 1), data[k - 1].1);
      if i < k - 1 {
        UnionEncloses(data, k - 1, i);
      }
    }
  }

  /** Each edge of the union of valid rectangles is an edge of one of them, so
      no smaller rectangle encloses them all. */
  lemma {:induction false} UnionTight(data: seq<(string, Rect)>, k: nat)
    requires 0 < k <= |data| && AllValid(data)
    ensures exists i :: 0 <= i < k && UnionUpTo(data, k).x1 == data[i].1.x1
    ensures exists i :: 0 <= i < k && UnionUpTo(data, k).y1 == data[i].1.y1
    ensures exists i :: 0 <= i < k && UnionUpTo(data, k).x2 == data[i].1.x2
    ensures exists i :: 0 <= i < k && UnionUpTo(data, k).y2 == data[i].1.y2
  {
    var w := UnionUpTo(data, k);
    if k == 1 {
      UnionOne(data);
      assert w.x1 == data[0].1.x1 && w.y1 == data[0].1.y1 && w.x2 == data[0].1.x2 && w.y2 == data[0].1.y2;
    } else {
      var u := UnionUpTo(data, k - 1);
      var last := data[k - 1].1;
      UnionValid(data, k - 1);
      UnionTight(data, k - 1);
      UnitedValid(u, last);
      var a :| 0 <= a < k - 1 && u.x1 == data[a].1.x1;
      var b :| 0 <= b < k - 1 && u.y1 == data[b].1.y1;
      var c :| 0 <= c < k - 1 && u.x2 == data[c].1.x2;
      var d :| 0 <= d < k - 1 && u.y2 == data[d].1.y2;
      var ia := if w.x1 == last.x1 then k - 1 else a;
      var ib := if w.y1 == last.y1 then k - 1 else b;
      var ic := if w.x2 == last.x2 then k - 1 else c;
      var id := if w.y2 == last.y2 then k - 1 else d;
      assert w.x1 == data[ia].1.x1;
      assert w.y1 == data[ib].1.y1;
      assert w.x2 == data[ic].1.x2;
      assert w.y2 == data[id].1.y2;
    }
  }

  /** Placing a valid rectangle relative to the top-left corner of an
      enclosing one puts it inside the enclosing one's own coordinates: at
      non-negative coordinates, within its width and height. */
  lemma RelativeInside(outer: Rect, inner: Rect)
    requires Encloses(outer, inner) && IsValid(inner)
    ensures var rel := Translated(inner, -outer.x1, -outer.y1);
      && 0 <= rel.x1 <= rel.x2 < Width(outer)
      && 0 <= rel.y1 <= rel.y2 < Height(outer)
      && Width(rel) == Width(inner) && Height(rel) == Height(inner)
  {
  }

  // ---------------------------------------------------------------- edges

  /** `RESIZE_MARGIN`. */
  const ResizeMargin: int := 10

  datatype Edge = LeftEdge | RightEdge | TopEdge | BottomEdge

  /** `get_edge(pos)` for a window of the given size: each edge independently. */
  function GetEdge(x: int, y: int, width: int, height: int): (e: set<Edge>)
    ensures LeftEdge in e <==> x < ResizeMargin
    ensures RightEdge in e <==> x > width - ResizeMargin
    ensures TopEdge in e <==> y < ResizeMargin
    ensures BottomEdge in e <==> y > height - ResizeMargin
  {
    (if x < ResizeMargin then {LeftEdge} else {})
    + (if x > width - ResizeMargin then {RightEdge} else {})
    + (if y < ResizeMargin then {TopEdge} else {})
    + (if y > height - ResizeMargin then {BottomEdge} else {})
  }

  /** The resize branch of `mouseMoveEvent`: the edges being dragged move by
      the pointer's travel since the press, and every other edge keeps its
      starting value. This is the rectangle asked of `setGeometry`; Qt's
      clamping of the size to the widget's minimum is not part of it. */
  function Resized(start: Rect, edges: set<Edge>, dx: int, dy: int): (r: Rect)
    ensures r.x1 == if LeftEdge in edges then start.x1 + dx else start.x1
    ensures r.x2 == if RightEdge in edges then start.x2 + dx else start.x2
    ensures r.y1 == if TopEdge in edges then start.y1 + dy else start.y1
    ensures r.y2 == if BottomEdge in edges then start.y2 + dy else start.y2
  {
    var r := start;
    var r := if LeftEdge in edges then r.(x1 := start.x1 + dx) else r;
    var r := if RightEdge in edges then r.(x2 := start.x2 + dx) else r;
    var r := if TopEdge in edges then r.(y1 := start.y1 + dy) else r;
    if BottomEdge in edges then r.(y2 := start.y2 + dy) else r
  }

  /** A window at least twice the margin wide never reports its left and
      right edges at once, and one at least twice the margin tall never
      reports its top and bottom edges at once. */
  lemma EdgeBands(x: int, y: int, width: int, height: int)
    ensures width >= 2 * ResizeMargin ==> !(LeftEdge in GetEdge(x, y, width, height) && RightEdge in GetEdge(x, y, width, height))
    ensures height >= 2 * ResizeMargin ==> !(TopEdge in GetEdge(x, y, width, height) && BottomEdge in GetEdge(x, y, width, height))
  {
  }

  // ---------------------------------------------------------------- messages

  /** A `TranslationItem` with the opacity last set on it, in hundredths. */
  datatype Item = Item(original: string, translated: string, system: bool, opacity: int)

  /** `max(0.15, 1.0 - i * 0.35)` in hundredths. */
  function Opacity(i: nat): (o: int)
    ensures 15 <= o <= 100
    ensures i == 0 ==> o == 100
  {
    if 100 - 35 * i < 15 then 15 else 100 - 35 * i
  }

  /** Older messages are never more opaque than newer ones. */
  lemma OpacityFades(i: nat, j: nat)
    requires i <= j
    ensures Opacity(j) <= Opacity(i)
  {
  }

  /** A `OcrPatch`: its text and its rectangle inside the window. */
  datatype Patch = Patch(text: string, rect: Rect)

  datatype Mode = Stt | Ocr

  /** `OverlayWindow`. The widgets handed to `deleteLater` are logged in
      `discardedItems` and `discardedPatches`, in the order they were popped. */
  class Overlay {
    const mode: Mode
    const maxMessages: int
    const displayMs: int
    var items: seq<Item>
    var discardedItems: seq<Item>
    var patches: seq<Patch>
    var discardedPatches: seq<Patch>
    var geometry: Rect
    var visible: bool
    var fadeOutMs: Option<int>
    var dragging: bool
    var resizing: bool
    var resizeEdge: set<Edge>
    var resizeStart: Rect
    var pressX: int
    var pressY: int

    /** `OverlayWindow(mode, style_config)`, with `max_messages` and
        `display_duration_ms` read from the style (3 and 4000 when absent). */
    constructor (mode: Mode, maxMessages: int, displayMs: int, geometry: Rect)
      ensures this.mode == mode && this.maxMessages == maxMessages && this.displayMs == displayMs
      ensures this.geometry == geometry
      ensures items == [] && patches == [] && discardedItems == [] && discardedPatches == []
      ensures !visible && fadeOutMs == None && !dragging && !resizing
    {
      this.mode := mode;
      this.maxMessages := maxMessages;
      this.displayMs := displayMs;
      this.geometry := geometry;
      items := [];
      discardedItems := [];
      patches := [];
      discardedPatches := [];
      visible := false;
      fadeOutMs := None;
      dragging := false;
      resizing := false;
      resizeEdge := {};
      resizeStart := geometry;
      pressX := 0;
      pressY := 0;
    }

    /** The loop of `add_stt_message` that sets every item's opacity by its age. */
    method Fade()
      modifies this
      ensures |items| == |old(items)|
      ensures forall i :: 0 <= i < |items| ==> items[i] == old(items)[i].(opacity := Opacity(i))
      ensures discardedItems == old(discardedItems) && patches == old(patches)
      ensures geometry == old(geometry) && visible == old(visible)
    {
      var i := 0;
      while i < |items|
        invariant 0 <= i <= |items| == |old(items)|
        invariant forall j :: 0 <= j < i ==> items[j] == old(items)[j].(opacity := Opacity(j))
        invariant forall j :: i <= j < |items| ==> items[j] == old(items)[j]
        invariant discardedItems == old(discardedItems) && patches == old(patches)
        invariant geometry == old(geometry) && visible == old(visible)
      {
        items := items[i := items[i].(opacity := Opacity(i))];
        i := i + 1;
      }
    }

    /** `add_stt_message(original, translated, is_system)`: the new message
        goes first; when that makes the list longer than `max_messages`, the
        last (oldest) message is discarded; then every message is faded by its
        position. */
    method AddSttMessage(original: string, translated: string, isSystem: bool)
      requires mode == Stt
      modifies this
      ensures var added := [Item(original, translated, isSystem, 0)] + old(items);
        && (|added| > maxMessages ==> |items| == |added| - 1 && discardedItems == old(discardedItems) + [added[|added| - 1]])
        && (|added| <= maxMessages ==> |items| == |added| && discardedItems == old(discardedItems))
        && forall i :: 0 <= i < |items| ==> items[i] == added[i].(opacity := Opacity(i))
      ensures 0 <= maxMessages && |old(items)| <= maxMessages ==> |items| <= maxMessages
      ensures patches == old(patches) && geometry == old(geometry)
    {
      items := [Item(original, translated, isSystem, 0)] + items;
      if |items| > maxMessages {
        discardedItems := discardedItems + [items[|items| - 1]];
        items := items[..|items| - 1];
      }
      assert forall i :: 0 <= i < |items| ==> items[i] == ([Item(original, translated, isSystem, 0)] + old(items))[i];
      Fade();
    }

    /** `clear_stt_messages()`: messages are popped from the end until none is left. */
    method ClearSttMessages()
      modifies this
      ensures items == []
      ensures discardedItems == old(discardedItems) + Reversed(old(items))
      ensures patches == old(patches) && discardedPatches == old(discardedPatches)
      ensures geometry == old(geometry) && visible == old(visible) && fadeOutMs == old(fadeOutMs)
    {
      var rest, gone := items, discardedItems;
      while rest != []
        invariant gone + Reversed(rest) == discardedItems + Reversed(items)
        invariant unchanged(this)
        decreases |rest|
      {
        var last := rest[|rest| - 1];
        ReversedSnoc(rest[..|rest| - 1], last);
        assert rest == rest[..|rest| - 1] + [last];
        gone := gone + [last];
        rest := rest[..|rest| - 1];
      }
      items, discardedItems := rest, gone;
    }

    /** `hide_patches()`: patches are popped from the end until none is left,
        and the window is hidden. */
    method HidePatches()
      modifies this
      ensures patches == [] && !visible
      ensures discardedPatches == old(discardedPatches) + Reversed(old(patches))
      ensures items == old(items) && geometry == old(geometry) && fadeOutMs == old(fadeOutMs)
    {
      var rest, gone := patches, discardedPatches;
      while rest != []
        invariant gone + Reversed(rest) == discardedPatches + Reversed(patches)
        invariant unchanged(this)
        decreases |rest|
      {
        var last := rest[|rest| - 1];
        ReversedSnoc(rest[..|rest| - 1], last);
        assert rest == rest[..|rest| - 1] + [last];
        gone := gone + [last];
        rest := rest[..|rest| - 1];
      }
      patches, discardedPatches := rest, gone;
      visible := false;
    }

    /** The single-shot fade-out timer fires: it is no longer pending, and
        its `timeout` runs `hide_patches()`. */
    method FadeOutElapsed()
      modifies this
      ensures fadeOutMs == None
      ensures patches == [] && !visible
      ensures discardedPatches == old(discardedPatches) + Reversed(old(patches))
      ensures items == old(items) && geometry == old(geometry)
    {
      fadeOutMs := None;
      HidePatches();
    }

    /** `update_ocr_patches(patches_data)`: the previous patches always go;
        for a non-empty list the window takes the union of the rectangles,
        every patch is placed relative to its top-left corner, the window is
        shown and the fade-out timer started. */
    method UpdateOcrPatches(data: seq<(string, Rect)>)
      requires mode == Ocr
      modifies this
      ensures discardedPatches == old(discardedPatches) + Reversed(old(patches))
      ensures data == [] ==> patches == [] && !visible && geometry == old(geometry) && fadeOutMs == old(fadeOutMs)
      ensures data != [] ==>
        && geometry == UnionUpTo(data, |data|)
        && |patches| == |data|
        && (forall i :: 0 <= i < |data| ==>
              patches[i] == Patch(data[i].0, Translated(data[i].1, -geometry.x1, -geometry.y1)))
        && visible && fadeOutMs == Some(displayMs)
      ensures items == old(items)
    {
      HidePatches();
      if data == [] {
        return;
      }
      var parent := NullRect;
      var i := 0;
      while i < |data|
        invariant 0 <= i <= |data|
        invariant parent == UnionUpTo(data, i)
      {
        parent := United(parent, data[i].1);
        i := i + 1;
      }
      geometry := parent;
      var j := 0;
      while j < |data|
        invariant 0 <= j <= |data|
        invariant |patches| == j
        invariant forall k :: 0 <= k < j ==> patches[k] == Patch(data[k].0, Translated(data[k].1, -parent.x1, -parent.y1))
        invariant geometry == parent && items == old(items)
        invariant discardedPatches == old(discardedPatches) + Reversed(old(patches))
      {
        patches := patches + [Patch(data[j].0, Translated(data[j].1, -parent.x1, -parent.y1))];
        j := j + 1;
      }
      visible := true;
      fadeOutMs := Some(displayMs);
    }

    /** `mousePressEvent` with the left button at window position (`x`, `y`)
        and screen position (`gx`, `gy`): near an edge a resize starts,
        elsewhere a drag. Other buttons and screen-text mode are ignored. */
    method MousePress(leftButton: bool, x: int, y: int, gx: int, gy: int)
      modifies this
      ensures mode != Stt || !leftButton ==> dragging == old(dragging) && resizing == old(resizing) && resizeEdge == old(resizeEdge)
      ensures mode == Stt && leftButton ==>
        && resizeEdge == GetEdge(x, y, Width(geometry), Height(geometry))
        && (resizeEdge != {} ==> resizing && dragging == old(dragging) && resizeStart == geometry && (pressX, pressY) == (gx, gy))
        && (resizeEdge == {} ==> dragging && resizing == old(resizing) && (pressX, pressY) == (gx - geometry.x1, gy - geometry.y1))
      ensures geometry == old(geometry) && items == old(items) && patches == old(patches)
    {
      if mode != Stt || !leftButton {
        return;
      }
      resizeEdge := GetEdge(x, y, Width(geometry), Height(geometry));
      if resizeEdge != {} {
        resizing := true;
        resizeStart := geometry;
        pressX, pressY := gx, gy;
      } else {
        dragging := true;
        pressX, pressY := gx - geometry.x1, gy - geometry.y1;
      }
    }

    /** `mouseMoveEvent` with the pointer at screen position (`gx`, `gy`): a drag
        moves the window keeping its size, a resize moves the grabbed edges
        (the cursor shape chosen otherwise is not modelled). */
    method MouseMove(gx: int, gy: int)
      modifies this
      ensures mode != Stt || (!dragging && !resizing) ==> geometry == old(geometry)
      ensures mode == Stt && dragging ==>
        geometry == Translated(old(geometry), gx - pressX - old(geometry).x1, gy - pressY - old(geometry).y1)
      ensures mode == Stt && !dragging && resizing ==>
        geometry == Resized(resizeStart, resizeEdge, gx - pressX, gy - pressY)
      ensures dragging == old(dragging) && resizing == old(resizing) && resizeStart == old(resizeStart)
      ensures items == old(items) && patches == old(patches)
    {
      if mode != Stt {
        return;
      }
      if dragging {
        var left, top := gx - pressX, gy - pressY;
        geometry := Translated(geometry, left - geometry.x1, top - geometry.y1);
      } else if resizing {
        geometry := Resized(resizeStart, resizeEdge, gx - pressX, gy - pressY);
      }
    }

    /** `mouseReleaseEvent`. */
    method MouseRelease()
      modifies this
      ensures mode == Stt ==> !dragging && !resizing
      ensures mode != Stt ==> dragging == old(dragging) && resizing == old(resizing)
      ensures geometry == old(geometry) && items == old(items) && patches == old(patches)
    {
      if mode == Stt {
        dragging := false;
        resizing := false;
      }
    }
  }

  function Reversed<T>(s: seq<T>): (r: seq<T>)
    ensures |r| == |s|
  {
    if s == [] then [] else Reversed(s[1..]) + [s[0]]
  }

  lemma {:induction false} ReversedSnoc<T>(s: seq<T>, x: T)
    ensures Reversed(s + [x]) == [x] + Reversed(s)
  {
    if s != [] {
      assert (s + [x])[1..] == s[1..] + [x];
      ReversedSnoc(s[1..], x);
    } else {
      assert Reversed([x]) == Reversed([]) + [x];
    }
  }

  /** After an update with valid rectangles, every patch lies inside the window
      at non-negative coordinates, with its original size. */
  lemma PatchesInside(data: seq<(string, Rect)>, i: nat, window: Rect, patch: Rect)
    requires i < |data| && AllValid(data)
    requires window == UnionUpTo(data, |data|)
    requires patch == Translated(data[i].1, -window.x1, -window.y1)
    ensures 0 <= patch.x1 <= patch.x2 < Width(window)
    ensures 0 <= patch.y1 <= patch.y2 < Height(window)
    ensures Width(patch) == Width(data[i].1) && Height(patch) == Height(data[i].1)
  {
    UnionEncloses(data, |data|, i);
    RelativeInside(window, data[i].1);
  }
}
