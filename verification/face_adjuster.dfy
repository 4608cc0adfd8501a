/**
 * The face-box editor: dragging a box, resizing it from one of its four corner
 * handles, adding a box by hand and deleting the selected one.
 *
 * Pointer positions are taken in two forms: screen positions (for the "has the
 * pointer really moved" thresholds) and positions already converted to natural
 * image coordinates (for the box arithmetic). The conversion from the displayed,
 * scaled image to natural coordinates is left to the caller.
 */
module FaceAdjuster {
  import opened FaceDetection

  function Min(a: real, b: real): real { if a <= b then a else b }
  function Max(a: real, b: real): real { if a >= b then a else b }
  function Abs(a: real): real { if a >= 0.0 then a else -a }

  datatype Point = Point(x: real, y: real)

  /** The editor's state: the list of faces and the index of the selected one
      (-1 when nothing is selected). */
  datatype Editor = Editor(faces: seq<DetectedFace>, selected: int)

  /** Screen pixels a drag must travel before it moves the box. */
  const DragThreshold: real := 5.0
  /** Screen pixels a resize must travel before it changes the box. */
  const ResizeThreshold: real := 3.0
  /** Smallest width and height a resize produces. */
  const MinSize: real := 20.0

  /** `Math.max(lo, Math.min(v, hi))`. */
  function Clamp(v: real, lo: real, hi: real): (r: real)
    ensures lo <= r
    ensures lo <= hi ==> r <= hi
    ensures lo <= v <= hi ==> r == v
  {
    Max(lo, Min(v, hi))
  }

  /** When the range is not empty, clamping picks the point of the range closest to `v`. */
  lemma ClampIsNearest(v: real, lo: real, hi: real, z: real)
    requires lo <= z <= hi
    ensures Abs(Clamp(v, lo, hi) - v) <= Abs(z - v)
  {
  }

  /**
   * `Math.sqrt(dx * dx + dy * dy) > threshold` for a non-negative threshold,
   * decided on the squared distance: moving further than the threshold along
   * one axis is enough, and any move beyond it covers more than the threshold
   * in |dx| + |dy|; a zero threshold is passed by any move at all.
   */
  predicate MovedBeyond(start: Point, pointer: Point, threshold: real): (beyond: bool)
    requires threshold >= 0.0
    ensures Abs(pointer.x - start.x) > threshold || Abs(pointer.y - start.y) > threshold ==> beyond
    ensures beyond ==> Abs(pointer.x - start.x) + Abs(pointer.y - start.y) > threshold
    ensures threshold == 0.0 ==> (beyond <==> pointer != start)
  {
    var dx := pointer.x - start.x;
    var dy := pointer.y - start.y;
    SquaredDistanceBounds(dx, dy, threshold);
    dx * dx + dy * dy > threshold * threshold
  }

  /** How the squared distance compares with a squared threshold, axis by axis. */
  lemma SquaredDistanceBounds(dx: real, dy: real, t: real)
    requires t >= 0.0
    ensures Abs(dx) > t || Abs(dy) > t ==> dx * dx + dy * dy > t * t
    ensures dx * dx + dy * dy > t * t ==> Abs(dx) + Abs(dy) > t
  {
    var a, b := Abs(dx), Abs(dy);
    assert a * a == dx * dx && b * b == dy * dy;
    if a > t {
      SquareMonotone(t, a);
    }
    if b > t {
      SquareMonotone(t, b);
    }
    if a + b <= t {
      SquareMonotone(a + b, t);
      assert a * a + b * b <= (a + b) * (a + b);
    }
  }

  /** Squaring is monotone on non-negative reals. */
  lemma SquareMonotone(p: real, q: real)
    requires 0.0 <= p <= q
    ensures p * p <= q * q
    ensures p < q ==> p * p < q * q
  {
    assert q * q - p * p == (q - p) * (q + p);
    if p < q {
      ProductPositive(q - p, q + p);
    }
  }

  lemma ProductPositive(u: real, v: real)
    requires u > 0.0 && v > 0.0
    ensures u * v > 0.0
  {
  }

  // ---------------------------------------------------------------------------
  // Dragging

  /**
   * The box moved so that its origin is at `target`, clamped so that it stays
   * inside a naturalWidth x naturalHeight image; its size does not change.
   */
  function DraggedBox(box: Box, target: Point, naturalWidth: real, naturalHeight: real): (r: Box)
    ensures r.width == box.width && r.height == box.height
    ensures 0.0 <= r.x && 0.0 <= r.y
    ensures box.width <= naturalWidth ==> r.x + r.width <= naturalWidth
    ensures box.height <= naturalHeight ==> r.y + r.height <= naturalHeight
    ensures 0.0 <= target.x <= naturalWidth - box.width ==> r.x == target.x
    ensures 0.0 <= target.y <= naturalHeight - box.height ==> r.y == target.y
  {
    box.(x := Clamp(target.x, 0.0, naturalWidth - box.width),
         y := Clamp(target.y, 0.0, naturalHeight - box.height))
  }

  /** Dragging to the same target a second time changes nothing more. */
  lemma DraggedBoxIdempotent(box: Box, target: Point, naturalWidth: real, naturalHeight: real)
    ensures DraggedBox(DraggedBox(box, target, naturalWidth, naturalHeight), target, naturalWidth, naturalHeight)
            == DraggedBox(box, target, naturalWidth, naturalHeight)
  {
  }

  /**
   * A pointer move while dragging. Nothing changes while no face is selected or
   * the pointer is still within 5 px of where the drag started; otherwise only
   * the selected face's box is moved.
   */
  function DragMove(editor: Editor, start: Point, pointer: Point, target: Point,
                    naturalWidth: real, naturalHeight: real): (r: Editor)
    requires editor.selected < |editor.faces|
    ensures r.selected == editor.selected && |r.faces| == |editor.faces|
    ensures forall i :: 0 <= i < |r.faces| && i != editor.selected ==> r.faces[i] == editor.faces[i]
    ensures !(editor.selected >= 0 && MovedBeyond(start, pointer, DragThreshold)) ==> r == editor
    ensures editor.selected >= 0 && MovedBeyond(start, pointer, DragThreshold) ==>
              var face := editor.faces[editor.selected];
              r.faces[editor.selected] == face.(box := DraggedBox(face.box, target, naturalWidth, naturalHeight))
  {
    if editor.selected < 0 || !MovedBeyond(start, pointer, DragThreshold) then editor
    else
      var face := editor.faces[editor.selected];
      var moved := face.(box := DraggedBox(face.box, target, naturalWidth, naturalHeight));
      editor.(faces := editor.faces[editor.selected := moved])
  }

  // ---------------------------------------------------------------------------
  // Resizing

  const TopLeft: string := "top-left"
  const TopRight: string := "top-right"
  const BottomLeft: string := "bottom-left"
  const BottomRight: string := "bottom-right"

  /** The corner of `box` that the handle named `handle` sits on. */
  function HandleCorner(box: Box, handle: string): Point {
    if handle == TopLeft then Point(box.x, box.y)
    else if handle == TopRight then Point(box.x + box.width, box.y)
    else if handle == BottomLeft then Point(box.x, box.y + box.height)
    else Point(box.x + box.width, box.y + box.height)
  }

  /**
   * The box a resize gives before it is clamped to the image: the corner
   * opposite the handle stays where it was in `initial`, the handle's corner
   * follows the mouse as far as a 20 x 20 minimum allows, and past that limit
   * the side is exactly 20. An unknown handle leaves the box as it was.
   */
  function ResizedBox(initial: Box, handle: string, mouse: Point): (b: Box)
    ensures handle == TopLeft ==>
              && b.x + b.width == initial.x + initial.width
              && b.y + b.height == initial.y + initial.height
              && (mouse.x <= initial.x + initial.width - MinSize ==> b.x == mouse.x)
              && (mouse.x > initial.x + initial.width - MinSize ==> b.width == MinSize)
              && (mouse.y <= initial.y + initial.height - MinSize ==> b.y == mouse.y)
              && (mouse.y > initial.y + initial.height - MinSize ==> b.height == MinSize)
    ensures handle == TopRight ==>
              && b.x == initial.x
              && b.y + b.height == initial.y + initial.height
              && (mouse.x >= initial.x + MinSize ==> b.x + b.width == mouse.x)
              && (mouse.x < initial.x + MinSize ==> b.width == MinSize)
              && (mouse.y <= initial.y + initial.height - MinSize ==> b.y == mouse.y)
              && (mouse.y > initial.y + initial.height - MinSize ==> b.height == MinSize)
    ensures handle == BottomLeft ==>
              && b.x + b.width == initial.x + initial.width
              && b.y == initial.y
              && (mouse.x <= initial.x + initial.width - MinSize ==> b.x == mouse.x)
              && (mouse.x > initial.x + initial.width - MinSize ==> b.width == MinSize)
              && (mouse.y >= initial.y + MinSize ==> b.y + b.height == mouse.y)
              && (mouse.y < initial.y + MinSize ==> b.height == MinSize)
    ensures handle == BottomRight ==>
              && b.x == initial.x
              && b.y == initial.y
              && (mouse.x >= initial.x + MinSize ==> b.x + b.width == mouse.x)
              && (mouse.x < initial.x + MinSize ==> b.width == MinSize)
              && (mouse.y >= initial.y + MinSize ==> b.y + b.height == mouse.y)
              && (mouse.y < initial.y + MinSize ==> b.height == MinSize)
    ensures handle in {TopLeft, TopRight, BottomLeft, BottomRight} ==>
              b.width >= MinSize && b.height >= MinSize
    ensures handle !in {TopLeft, TopRight, BottomLeft, BottomRight} ==> b == initial
    ensures (initial.width >= MinSize && initial.height >= MinSize
             && mouse == HandleCorner(initial, handle)) ==> b == initial
  {
    var right := initial.x + initial.width;
    var bottom := initial.y + initial.height;
    if handle == TopLeft then
      var x := Min(mouse.x, right - MinSize);
      var y := Min(mouse.y, bottom - MinSize);
      Box(x, y, right - x, bottom - y)
    else if handle == TopRight then
      var y := Min(mouse.y, bottom - MinSize);
      Box(initial.x, y, Max(mouse.x - initial.x, MinSize), bottom - y)
    else if handle == BottomLeft then
      var x := Min(mouse.x, right - MinSize);
      Box(x, initial.y, right - x, Max(mouse.y - initial.y, MinSize))
    else if handle == BottomRight then
      Box(initial.x, initial.y, Max(mouse.x - initial.x, MinSize), Max(mouse.y - initial.y, MinSize))
    else
      initial
  }

  /**
   * The `switch` on the handle in the resize listener, which rewrites the box
   * field by field; it computes `ResizedBox`.
   */
  method ResizeFromHandle(initial: Box, handle: string, mouse: Point) returns (b: Box)
    ensures b == ResizedBox(initial, handle, mouse)
  {
    b := initial;
    if handle == TopLeft {
      var fixedRightX := initial.x + initial.width;
      var fixedBottomY := initial.y + initial.height;
      b := b.(x := Min(mouse.x, fixedRightX - MinSize));
      b := b.(y := Min(mouse.y, fixedBottomY - MinSize));
      b := b.(width := fixedRightX - b.x);
      b := b.(height := fixedBottomY - b.y);
    } else if handle == TopRight {
      var fixedLeftX := initial.x;
      var fixedBottomY := initial.y + initial.height;
      b := b.(x := fixedLeftX);
      b := b.(y := Min(mouse.y, fixedBottomY - MinSize));
      b := b.(width := Max(mouse.x - fixedLeftX, MinSize));
      b := b.(height := fixedBottomY - b.y);
    } else if handle == BottomLeft {
      var fixedRightX := initial.x + initial.width;
      var fixedTopY := initial.y;
      b := b.(x := Min(mouse.x, fixedRightX - MinSize));
      b := b.(y := fixedTopY);
      b := b.(width := fixedRightX - b.x);
      b := b.(height := Max(mouse.y - fixedTopY, MinSize));
    } else if handle == BottomRight {
      var fixedLeftX := initial.x;
      var fixedTopY := initial.y;
      b := b.(x := fixedLeftX);
      b := b.(y := fixedTopY);
      b := b.(width := Max(mouse.x - fixedLeftX, MinSize));
      b := b.(height := Max(mouse.y - fixedTopY, MinSize));
    }
  }

  /**
   * The clamp that follows every resize: the origin is kept at least 20 px from
   * the right and bottom edges and not before the left and top ones, and the
   * size is cut so that the box ends inside the image.
   */
  function ClampedBox(box: Box, naturalWidth: real, naturalHeight: real): (b: Box)
    ensures 0.0 <= b.x && b.x + b.width <= naturalWidth
    ensures 0.0 <= b.y && b.y + b.height <= naturalHeight
    ensures naturalWidth >= MinSize ==> b.x <= naturalWidth - MinSize
    ensures naturalHeight >= MinSize ==> b.y <= naturalHeight - MinSize
    ensures naturalWidth >= MinSize && box.width >= MinSize ==> b.width >= MinSize
    ensures naturalHeight >= MinSize && box.height >= MinSize ==> b.height >= MinSize
    ensures 0.0 <= box.x <= naturalWidth - MinSize && box.x + box.width <= naturalWidth ==>
              b.x == box.x && b.width == box.width
    ensures 0.0 <= box.y <= naturalHeight - MinSize && box.y + box.height <= naturalHeight ==>
              b.y == box.y && b.height == box.height
  {
    var x := Max(0.0, Min(box.x, naturalWidth - MinSize));
    var y := Max(0.0, Min(box.y, naturalHeight - MinSize));
    Box(x, y, Min(box.width, naturalWidth - x), Min(box.height, naturalHeight - y))
  }

  /** The four assignments of the clamp, in the listener's order; they compute `ClampedBox`. */
  method ClampToImage(box: Box, naturalWidth: real, naturalHeight: real) returns (b: Box)
    ensures b == ClampedBox(box, naturalWidth, naturalHeight)
  {
    b := box;
    b := b.(x := Max(0.0, Min(b.x, naturalWidth - MinSize)));
    b := b.(y := Max(0.0, Min(b.y, naturalHeight - MinSize)));
    b := b.(width := Min(b.width, naturalWidth - b.x));
    b := b.(height := Min(b.height, naturalHeight - b.y));
  }

  /**
   * A pointer move while resizing. The box changes once the pointer has moved
   * more than 3 px from where the resize started, and from then on at every
   * move (`moved` records that); nothing changes while no face is selected.
   * Only the selected face's box is replaced, by the resized and clamped box.
   */
  method ResizeMove(editor: Editor, hasMoved: bool, initial: Box, handle: string,
                    start: Point, pointer: Point, mouse: Point,
                    naturalWidth: real, naturalHeight: real)
    returns (r: Editor, moved: bool)
    requires editor.selected < |editor.faces|
    ensures moved == (hasMoved || (editor.selected >= 0 && MovedBeyond(start, pointer, ResizeThreshold)))
    ensures r.selected == editor.selected && |r.faces| == |editor.faces|
    ensures forall i :: 0 <= i < |r.faces| && i != editor.selected ==> r.faces[i] == editor.faces[i]
    ensures !(editor.selected >= 0 && moved) ==> r == editor
    ensures editor.selected >= 0 && moved ==>
              var before := editor.faces[editor.selected];
              var after := r.faces[editor.selected];
              && after == before.(box := ClampedBox(ResizedBox(initial, handle, mouse), naturalWidth, naturalHeight))
              && after.id == before.id && after.detection == before.detection
              && 0.0 <= after.box.x && after.box.x + after.box.width <= naturalWidth
              && 0.0 <= after.box.y && after.box.y + after.box.height <= naturalHeight
              && (naturalWidth >= MinSize ==> after.box.x <= naturalWidth - MinSize)
              && (naturalHeight >= MinSize ==> after.box.y <= naturalHeight - MinSize)
  {
    r, moved := editor, hasMoved;
    if editor.selected < 0 {
      return;
    }
    if MovedBeyond(start, pointer, ResizeThreshold) || hasMoved {
      moved := true;
      var newBox := ResizeFromHandle(initial, handle, mouse);
      newBox := ClampToImage(newBox, naturalWidth, naturalHeight);
      var face := editor.faces[editor.selected];
      r := editor.(faces := editor.faces[editor.selected := face.(box := newBox)]);
    }
  }

  // ---------------------------------------------------------------------------
  // Adding and deleting

  /** The box given to a face added by hand. */
  const ManualBox: Box := Box(100.0, 100.0, 100.0, 100.0)

  /** The id `manual-face-<now>` of a face added by hand at time `now` (ms). */
  function ManualFaceId(now: nat): (id: string)
    ensures |id| > 12 && id[..12] == "manual-face-"
    ensures forall k :: 12 <= k < |id| ==> '0' <= id[k] <= '9'
  {
    "manual-face-" + NatToString(now)
  }

  /** A hand-made id never equals an id handed out by detection. */
  lemma ManualFaceIdIsNotDetected(now: nat, index: nat)
    ensures ManualFaceId(now) != FaceId(index)
  {
    assert ManualFaceId(now)[0] == 'm' && FaceId(index)[0] == 'f';
  }

  /** `handleAddFace`: appends one face with the default box; the others stay as they were. */
  function AddFace(editor: Editor, now: nat): (r: Editor)
    ensures r.selected == editor.selected
    ensures |r.faces| == |editor.faces| + 1 && r.faces[..|editor.faces|] == editor.faces
    ensures r.faces[|editor.faces|].box == ManualBox && r.faces[|editor.faces|].detection == None
    ensures r.faces[|editor.faces|].id == ManualFaceId(now)
  {
    editor.(faces := editor.faces + [DetectedFace(ManualFaceId(now), ManualBox, None)])
  }

  /** `prev.filter((_, i) => i !== k)`. */
  function WithoutIndex(s: seq<DetectedFace>, k: nat): (r: seq<DetectedFace>)
    ensures k < |s| ==> |r| == |s| - 1
    ensures k < |s| ==> forall i :: 0 <= i < k ==> r[i] == s[i]
    ensures k < |s| ==> forall i :: k <= i < |r| ==> r[i] == s[i + 1]
    ensures k >= |s| ==> r == s
  {
    if k < |s| then s[..k] + s[k + 1..] else s
  }

  /**
   * `handleDeleteFace`: with a face selected, removes exactly that face, keeps
   * the others in order and clears the selection; with none selected, does nothing.
   */
  function DeleteFace(editor: Editor): (r: Editor)
    ensures editor.selected < 0 ==> r == editor
    ensures editor.selected >= 0 ==> r.selected == -1
    ensures 0 <= editor.selected < |editor.faces| ==>
              && |r.faces| == |editor.faces| - 1
              && (forall i :: 0 <= i < editor.selected ==> r.faces[i] == editor.faces[i])
              && (forall i :: editor.selected <= i < |r.faces| ==> r.faces[i] == editor.faces[i + 1])
    ensures editor.selected >= |editor.faces| ==> r.faces == editor.faces
  {
    if editor.selected < 0 then editor
    else Editor(WithoutIndex(editor.faces, editor.selected), -1)
  }

  /** Adding a face, selecting it and deleting it gives back the original list. */
  lemma DeleteUndoesAdd(editor: Editor, now: nat)
    ensures DeleteFace(AddFace(editor, now).(selected := |editor.faces|)).faces == editor.faces
  {
    var added := AddFace(editor, now).(selected := |editor.faces|);
    assert added.faces[..|editor.faces|] == editor.faces;
  }
}
