/**
 * The image editor's text layer and background (src/components/
 * ImageCustomizer.tsx). The mouse handlers overwrite the gesture flags, the
 * pointer and position snapshots, the position and the width step by step;
 * the position stays within [0, 100] percent on both axes and the width
 * within [100, 800] pixels whatever the pointer does. Pixel arithmetic is
 * exact (`real`); the container's measured size is a parameter with
 * positive extents, and the rotate handle's start angle is a parameter.
 */
module ImageCustomizerState {
  import opened Types

  const MinPercent: real := 0.0
  const MaxPercent: real := 100.0
  const MinWidth: real := 100.0
  const MaxWidth: real := 800.0

  /** A measured length in pixels. */
  type Extent = r: real | r > 0.0 witness 1.0

  /** The size of the `quote-image` container as measured by
      `getBoundingClientRect`. */
  datatype Rect = Rect(width: Extent, height: Extent)

  /** How `handleMouseDown` classifies `e.target`: an HTML element with the
      `resize-handle` class, one with the `rotate-handle` class, or anything
      else on the layer. The rotate handle is filled by an SVG icon, which is
      not an HTML element, so a press on the icon is a `TextBody` press. */
  datatype Target = ResizeHandle | RotateHandle | TextBody

  /** `Math.max(lo, Math.min(hi, v))`: for `lo <= hi`, the point of
      [lo, hi] nearest to `v`. */
  function Clamp(v: real, lo: real, hi: real): (r: real)
    ensures lo <= hi ==> lo <= r <= hi
    ensures lo <= v <= hi ==> r == v
    ensures lo <= hi && v < lo ==> r == lo
    ensures lo <= hi && hi < v ==> r == hi
  {
    var upper := if hi < v then hi else v;
    if lo > upper then lo else upper
  }

  /** Clamping never reverses the order of two values. */
  lemma ClampMonotone(v: real, w: real, lo: real, hi: real)
    requires lo <= hi && v <= w
    ensures Clamp(v, lo, hi) <= Clamp(w, lo, hi)
  {
  }

  /** A position inside the container: both coordinates in [0, 100]. */
  predicate InContainer(p: Point) {
    MinPercent <= p.x <= MaxPercent && MinPercent <= p.y <= MaxPercent
  }

  /** One axis of a drag: the snapshot `start` moved by the pointer's travel
      since mouse-down, in percent of the container's extent, kept inside
      [0, 100]. */
  function DragAxis(start: real, anchor: real, pointer: real, extent: Extent): (r: real)
    ensures MinPercent <= r <= MaxPercent
  {
    Clamp(start + (pointer - anchor) / extent * 100.0, MinPercent, MaxPercent)
  }

  /** The position a drag move sets, both axes measured from the snapshots
      taken at mouse-down: it always lies inside the container. */
  function DragTarget(startText: Point, startPointer: Point, pointer: Point, container: Rect): (p: Point)
    ensures InContainer(p)
  {
    Point(DragAxis(startText.x, startPointer.x, pointer.x, container.width),
          DragAxis(startText.y, startPointer.y, pointer.y, container.height))
  }

  /** Dragging further along an axis never moves the layer back, and
      bringing the pointer back to where the drag started puts the layer
      back where it was. */
  lemma DragAxisMonotone(start: real, anchor: real, p: real, q: real, extent: Extent)
    requires p <= q
    ensures DragAxis(start, anchor, p, extent) <= DragAxis(start, anchor, q, extent)
    ensures MinPercent <= start <= MaxPercent ==> DragAxis(start, anchor, anchor, extent) == start
  {
    var dp, dq := (p - anchor) / extent, (q - anchor) / extent;
    assert dq - dp == (q - p) / extent;
    assert dp <= dq;
    ClampMonotone(start + dp * 100.0, start + dq * 100.0, MinPercent, MaxPercent);
  }

  /** Dragging by (+1000, 0) pixels in a 500-pixel container from x = 50
      pins the layer to the right edge, x = 100. */
  lemma DragPastEdgeClamps(anchor: real, container: Rect)
    requires container.width == 500.0
    ensures DragAxis(50.0, anchor, anchor + 1000.0, container.width) == MaxPercent
  {
    assert (anchor + 1000.0 - anchor) / container.width == 2.0;
  }

  /** One resize move: the width grows by twice the pointer's travel since
      the last move, kept within [100, 800]. */
  function ResizeStep(width: real, anchor: real, pointer: real): (w: real)
    ensures MinWidth <= w <= MaxWidth
  {
    Clamp(width + (pointer - anchor) * 2.0, MinWidth, MaxWidth)
  }

  /** The width after a whole resize gesture: each move re-anchors at the
      pointer, so the steps are incremental. */
  function ResizeGesture(width: real, anchor: real, pointers: seq<real>): (w: real)
    ensures pointers == [] ==> w == width
    ensures pointers != [] ==> MinWidth <= w <= MaxWidth
    decreases |pointers|
  {
    if pointers == [] then width
    else ResizeGesture(ResizeStep(width, anchor, pointers[0]), pointers[0], pointers[1..])
  }

  /** While no step hits a bound, the incremental steps add up: the width
      ends twice the total travel away from where it started. */
  lemma {:induction false} ResizeTelescopes(width: real, anchor: real, pointers: seq<real>)
    requires pointers != []
    requires forall k :: 0 <= k < |pointers| ==>
               MinWidth <= width + (pointers[k] - anchor) * 2.0 <= MaxWidth
    ensures ResizeGesture(width, anchor, pointers) == width + (pointers[|pointers| - 1] - anchor) * 2.0
    decreases |pointers|
  {
    var next := ResizeStep(width, anchor, pointers[0]);
    assert next == width + (pointers[0] - anchor) * 2.0;
    if |pointers| > 1 {
      var rest := pointers[1..];
      forall k | 0 <= k < |rest|
        ensures MinWidth <= next + (rest[k] - pointers[0]) * 2.0 <= MaxWidth
      {
        assert rest[k] == pointers[k + 1];
      }
      ResizeTelescopes(next, pointers[0], rest);
    }
  }

  /** Once a step hits a bound the travel beyond it is lost: pulling out by
      400 pixels and back again ends at the minimum width, not where the
      gesture began. */
  lemma ResizeLosesClampedTravel()
    ensures ResizeGesture(300.0, 0.0, [400.0, 0.0]) == MinWidth
  {
    assert ResizeStep(300.0, 0.0, 400.0) == MaxWidth;
    assert [400.0, 0.0][1..] == [0.0];
    assert ResizeStep(MaxWidth, 400.0, 0.0) == MinWidth;
  }

  class ImageCustomizer {
    var selectedFormat: ImageFormat
    var background: BackgroundOption
    var textPosition: Point
    var fontSize: int
    var textWidth: real
    var rotation: real
    var isDragging: bool
    var isResizing: bool
    var isSelected: bool
    var selectedCategory: Category
    var customBackgroundColor: string
    /** `startPosRef`: the pointer at mouse-down (re-anchored on every resize
        move), or the rotate handle's start angle and rotation. */
    var startPos: Point
    /** `startTextPosRef`: the position when the drag began. */
    var startTextPos: Point

    /** The layer and its drag snapshot lie inside the container, the width
        within its bounds, and the rotation is still the initial 0 (nothing
        ever sets it). */
    ghost predicate Valid()
      reads this
    {
      && InContainer(textPosition)
      && InContainer(startTextPos)
      && MinWidth <= textWidth <= MaxWidth
      && rotation == 0.0
    }

    /** No gesture in progress: no move or up events are being listened to. */
    predicate Idle()
      reads this
    {
      !isDragging && !isResizing
    }

    /** The initial `useState` and `useRef` values. */
    constructor ()
      ensures Valid() && Idle()
      ensures selectedFormat == ImageFormats[0]
      ensures background == BackgroundOption(ImageKind, PresetImages(Naturaleza)[0])
      ensures textPosition == Point(50.0, 50.0) && fontSize == 24 && textWidth == 300.0
      ensures rotation == 0.0 && !isSelected
      ensures selectedCategory == Naturaleza && customBackgroundColor == "#1a365d"
      ensures startPos == Point(0.0, 0.0) && startTextPos == Point(0.0, 0.0)
    {
      selectedFormat := ImageFormats[0];
      background := BackgroundOption(ImageKind, PresetImages(Naturaleza)[0]);
      textPosition := Point(50.0, 50.0);
      fontSize := 24;
      textWidth := 300.0;
      rotation := 0.0;
      isDragging := false;
      isResizing := false;
      isSelected := false;
      selectedCategory := Naturaleza;
      customBackgroundColor := "#1a365d";
      startPos := Point(0.0, 0.0);
      startTextPos := Point(0.0, 0.0);
    }

    /** `handleMouseDown`. A resize handle starts a resize and records the
        pointer; the rotate handle only records its start angle (when the
        layer could be measured) and the rotation, and starts no gesture;
        anywhere else on the layer starts a drag and records the pointer and
        the current position. The handles exist only while the layer is
        selected. */
    method MouseDown(target: Target, pointer: Point, handleAngle: Option<real>)
      requires Valid()
      requires target != TextBody ==> isSelected
      modifies this`isDragging, this`isResizing, this`startPos, this`startTextPos
      ensures Valid()
      ensures target == ResizeHandle ==>
                && isResizing && isDragging == old(isDragging)
                && startPos == pointer && startTextPos == old(startTextPos)
      ensures target == RotateHandle ==>
                && isResizing == old(isResizing) && isDragging == old(isDragging)
                && startTextPos == old(startTextPos)
                && startPos == (if handleAngle.Some? then Point(handleAngle.value, old(rotation)) else old(startPos))
      ensures target == TextBody ==>
                && isDragging && isResizing == old(isResizing)
                && startPos == pointer && startTextPos == old(textPosition)
      ensures old(Idle()) ==> !(isDragging && isResizing)
    {
      match target {
        case ResizeHandle =>
          isResizing := true;
          startPos := pointer;
        case RotateHandle =>
          if handleAngle.Some? {
            startPos := Point(handleAngle.value, rotation);
          }
        case TextBody =>
          isDragging := true;
          startPos := pointer;
          startTextPos := textPosition;
      }
    }

    /** `handleMouseMove`, which only runs while a gesture is in progress.
        A drag sets the position from the mouse-down snapshots (when the
        container could be measured); a resize steps the width and
        re-anchors at the pointer. A move outside any gesture changes
        nothing. */
    method MouseMove(pointer: Point, container: Option<Rect>)
      requires Valid()
      modifies this`textPosition, this`textWidth, this`startPos
      ensures Valid()
      ensures textPosition == if old(isDragging) && container.Some?
                              then DragTarget(old(startTextPos), old(startPos), pointer, container.value)
                              else old(textPosition)
      ensures textWidth == if old(isResizing) then ResizeStep(old(textWidth), old(startPos).x, pointer.x)
                           else old(textWidth)
      ensures startPos == if old(isResizing) then pointer else old(startPos)
    {
      if isDragging && container.Some? {
        textPosition := DragTarget(startTextPos, startPos, pointer, container.value);
      }
      if isResizing {
        textWidth := ResizeStep(textWidth, startPos.x, pointer.x);
        startPos := pointer;
      }
    }

    /** `handleMouseUp`: ends both gestures and nothing else. */
    method MouseUp()
      requires Valid()
      modifies this`isDragging, this`isResizing
      ensures Valid() && Idle()
    {
      isDragging := false;
      isResizing := false;
    }

    /** A click on the text layer selects it (the click does not reach the
        background). */
    method ClickText()
      requires Valid()
      modifies this`isSelected
      ensures Valid() && isSelected
    {
      isSelected := true;
    }

    /** A click on the background clears the selection. */
    method ClickBackground()
      requires Valid()
      modifies this`isSelected
      ensures Valid() && !isSelected
    {
      isSelected := false;
    }

    /** Choosing a category shows its images and makes its first image the
        background, whatever the background was. */
    method SelectCategory(category: Category)
      requires Valid()
      modifies this`selectedCategory, this`background
      ensures Valid()
      ensures selectedCategory == category
      ensures background == BackgroundOption(ImageKind, PresetImages(category)[0])
    {
      selectedCategory := category;
      background := BackgroundOption(ImageKind, PresetImages(category)[0]);
    }

    /** Choosing one of the shown images makes it the background. */
    method SelectPresetImage(url: string)
      requires Valid()
      modifies this`background
      ensures Valid()
      ensures background == BackgroundOption(ImageKind, url)
    {
      background := BackgroundOption(ImageKind, url);
    }

    /** Picking a colour makes that colour the background. */
    method ChangeBackgroundColor(color: string)
      requires Valid()
      modifies this`customBackgroundColor, this`background
      ensures Valid()
      ensures customBackgroundColor == color
      ensures background == BackgroundOption(ColorKind, color)
    {
      customBackgroundColor := color;
      background := BackgroundOption(ColorKind, color);
    }

    /** The uploaded file has been read: a string result (a data URI)
        becomes the background image; any other result changes nothing. */
    method FileLoaded(result: Option<string>)
      requires Valid()
      modifies this`background
      ensures Valid()
      ensures background == if result.Some? then BackgroundOption(ImageKind, result.value)
                            else old(background)
    {
      if result.Some? {
        background := BackgroundOption(ImageKind, result.value);
      }
    }
  }
}
