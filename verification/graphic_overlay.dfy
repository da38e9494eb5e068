/** `GraphicOverlay`: the view that holds the graphics to draw over the photo,
    the preview size of the image they refer to, and the per-axis scale
    factors from preview pixels to view pixels. Every operation is atomic
    here: the lock that makes them so in the source is not modelled. */
module GraphicOverlay {
  import opened Vision

  /** What a graphic shows. The label variant carries the label and score the
      activity formats into its string. */
  datatype Annotation =
    | TextAnnotation(element: Element)
    | FaceAnnotation(face: Face)
    | LabelAnnotation(text: string, score: real)

  /** A `Graphic` object. `ref` stands for the object's identity: the set of
      graphics compares by identity, and an object never changes its
      annotation, so two graphics with the same `ref` are the same value. */
  datatype Graphic = Graphic(ref: nat, annotation: Annotation)

  /** The overlay's state. `redrawRequests` counts the `postInvalidate` calls
      issued so far. */
  datatype Overlay = Overlay(
    previewWidth: int,
    previewHeight: int,
    widthScaleFactor: real,
    heightScaleFactor: real,
    graphics: set<Graphic>,
    redrawRequests: nat)

  /** A freshly created overlay. The starter GraphicOverlay.kt never assigns
      the preview size, so it stays 0 unless a caller supplies another state. */
  function Initial(): (o: Overlay)
    ensures o.graphics == {} && o.redrawRequests == 0
    ensures o.previewWidth == 0 && o.previewHeight == 0
    ensures o.widthScaleFactor == 1.0 && o.heightScaleFactor == 1.0
  {
    Overlay(0, 0, 1.0, 1.0, {}, 0)
  }

  /** `clear`: drops every graphic and requests one redraw. */
  function Clear(o: Overlay): (r: Overlay)
    ensures r.graphics == {}
    ensures r.redrawRequests == o.redrawRequests + 1
    ensures r.(graphics := o.graphics, redrawRequests := o.redrawRequests) == o
  {
    o.(graphics := {}, redrawRequests := o.redrawRequests + 1)
  }

  /** `add`: makes `g` a member (adding a member again changes nothing) and
      requests one redraw. */
  function Add(o: Overlay, g: Graphic): (r: Overlay)
    ensures g in r.graphics
    ensures forall h :: h != g ==> (h in r.graphics <==> h in o.graphics)
    ensures |r.graphics| == if g in o.graphics then |o.graphics| else |o.graphics| + 1
    ensures r.redrawRequests == o.redrawRequests + 1
    ensures r.(graphics := o.graphics, redrawRequests := o.redrawRequests) == o
  {
    o.(graphics := o.graphics + {g}, redrawRequests := o.redrawRequests + 1)
  }

  /** `remove`: takes out exactly `g` (silently doing nothing to the set when
      `g` is absent) and requests one redraw. */
  function Remove(o: Overlay, g: Graphic): (r: Overlay)
    ensures g !in r.graphics
    ensures forall h :: h != g ==> (h in r.graphics <==> h in o.graphics)
    ensures g !in o.graphics ==> r.graphics == o.graphics
    ensures |r.graphics| == if g in o.graphics then |o.graphics| - 1 else |o.graphics|
    ensures r.redrawRequests == o.redrawRequests + 1
    ensures r.(graphics := o.graphics, redrawRequests := o.redrawRequests) == o
  {
    o.(graphics := o.graphics - {g}, redrawRequests := o.redrawRequests + 1)
  }

  /** Removing what was just added restores the original set, provided it was
      not there before. */
  lemma AddThenRemove(o: Overlay, g: Graphic)
    requires g !in o.graphics
    ensures Remove(Add(o, g), g).graphics == o.graphics
  {
  }

  /** Adding the same graphic twice leaves a single entry. */
  lemma AddTwice(o: Overlay, g: Graphic)
    ensures Add(Add(o, g), g).graphics == Add(o, g).graphics
    ensures |Add(Add(o, g), g).graphics| == |Add(o, g).graphics|
  {
  }

  /** The scale-factor update at the start of `onDraw`: the factors become
      canvas size over preview size when both preview sides are non-zero;
      otherwise the previous factors are kept. Nothing else changes. */
  function UpdateScale(o: Overlay, canvasWidth: int, canvasHeight: int): (r: Overlay)
    ensures o.previewWidth != 0 && o.previewHeight != 0 ==>
      r.widthScaleFactor * o.previewWidth as real == canvasWidth as real
      && r.heightScaleFactor * o.previewHeight as real == canvasHeight as real
    ensures !(o.previewWidth != 0 && o.previewHeight != 0) ==> r == o
    ensures r.(widthScaleFactor := o.widthScaleFactor, heightScaleFactor := o.heightScaleFactor) == o
  {
    if o.previewWidth != 0 && o.previewHeight != 0 then
      o.(widthScaleFactor := canvasWidth as real / o.previewWidth as real,
         heightScaleFactor := canvasHeight as real / o.previewHeight as real)
    else
      o
  }

  /** `order` is an iteration order of `s`: every member once, nothing else. */
  predicate IsIterationOrder(order: seq<Graphic>, s: set<Graphic>) {
    (forall i :: 0 <= i < |order| ==> order[i] in s)
    && (forall g :: g in s ==> g in order)
    && (forall i, j :: 0 <= i < j < |order| ==> order[i] != order[j])
  }

  /** A duplicate-free sequence is as long as the set of its elements. */
  lemma {:induction false} IterationOrderLength(order: seq<Graphic>, s: set<Graphic>)
    requires IsIterationOrder(order, s)
    ensures |order| == |s|
    decreases |order|
  {
    if |order| > 0 {
      var last := order[|order| - 1];
      var rest := order[..|order| - 1];
      assert IsIterationOrder(rest, s - {last}) by {
        forall g | g in s - {last} ensures g in rest {
          var i :| 0 <= i < |order| && order[i] == g;
          assert i < |order| - 1;
          assert rest[i] == g;
        }
      }
      IterationOrderLength(rest, s - {last});
    }
  }

  /** One `graphic.draw(canvas)` call, with the scale factors in force. */
  datatype DrawCall = DrawCall(graphic: Graphic, widthScaleFactor: real, heightScaleFactor: real)

  /** The draw calls for `order`, in order, each under the given factors. */
  function DrawCalls(order: seq<Graphic>, sx: real, sy: real): (calls: seq<DrawCall>)
    ensures |calls| == |order|
    ensures forall i :: 0 <= i < |calls| ==> calls[i] == DrawCall(order[i], sx, sy)
  {
    seq(|order|, i requires 0 <= i < |order| => DrawCall(order[i], sx, sy))
  }

  /** `onDraw`: updates the scale factors, then draws every held graphic exactly
      once, each under the updated factors, in the set's iteration order
      `order`; the set of graphics is not modified. */
  function OnDraw(o: Overlay, canvasWidth: int, canvasHeight: int, order: seq<Graphic>): (r: (Overlay, seq<DrawCall>))
    requires IsIterationOrder(order, o.graphics)
    ensures r.0 == UpdateScale(o, canvasWidth, canvasHeight)
    ensures r.0.graphics == o.graphics
    ensures |r.1| == |o.graphics|
    ensures forall g :: g in o.graphics <==> exists i :: 0 <= i < |r.1| && r.1[i].graphic == g
    ensures forall i, j :: 0 <= i < j < |r.1| ==> r.1[i].graphic != r.1[j].graphic
    ensures forall i :: 0 <= i < |r.1| ==>
      r.1[i].widthScaleFactor == r.0.widthScaleFactor && r.1[i].heightScaleFactor == r.0.heightScaleFactor
  {
    IterationOrderLength(order, o.graphics);
    var updated := UpdateScale(o, canvasWidth, canvasHeight);
    var calls := DrawCalls(order, updated.widthScaleFactor, updated.heightScaleFactor);
    assert forall g :: g in o.graphics ==> exists i :: 0 <= i < |calls| && calls[i].graphic == g by {
      forall g | g in o.graphics ensures exists i :: 0 <= i < |calls| && calls[i].graphic == g {
        var i :| 0 <= i < |order| && order[i] == g;
        assert calls[i].graphic == g;
      }
    }
    (updated, calls)
  }

  /** After `clear`, a redraw draws nothing, whatever was held before. */
  lemma ClearThenDrawIsEmpty(o: Overlay, canvasWidth: int, canvasHeight: int, order: seq<Graphic>)
    requires IsIterationOrder(order, Clear(o).graphics)
    ensures OnDraw(Clear(o), canvasWidth, canvasHeight, order).1 == []
  {
  }

  /** `Graphic.scaleX`: a horizontal length from preview to view pixels. */
  function ScaleX(o: Overlay, horizontal: real): (r: real)
    ensures o.widthScaleFactor != 0.0 ==> r / o.widthScaleFactor == horizontal
    ensures o.widthScaleFactor == 0.0 ==> r == 0.0
  {
    horizontal * o.widthScaleFactor
  }

  /** `Graphic.scaleY`: a vertical length from preview to view pixels. */
  function ScaleY(o: Overlay, vertical: real): (r: real)
    ensures o.heightScaleFactor != 0.0 ==> r / o.heightScaleFactor == vertical
    ensures o.heightScaleFactor == 0.0 ==> r == 0.0
  {
    vertical * o.heightScaleFactor
  }

  /** `Graphic.translateX`: the same as `scaleX`, with no offset term. */
  function TranslateX(o: Overlay, x: real): (r: real)
    ensures r == ScaleX(o, x)
  {
    ScaleX(o, x)
  }

  /** `Graphic.translateY`: the same as `scaleY`, with no offset term. */
  function TranslateY(o: Overlay, y: real): (r: real)
    ensures r == ScaleY(o, y)
  {
    ScaleY(o, y)
  }

  /** The translate helpers fix the preview origin and are linear: there is
      no translation term at all. */
  lemma TranslateHasNoOffset(o: Overlay, a: real, b: real)
    ensures TranslateX(o, 0.0) == 0.0 && TranslateY(o, 0.0) == 0.0
    ensures TranslateX(o, a + b) == TranslateX(o, a) + TranslateX(o, b)
    ensures TranslateY(o, a + b) == TranslateY(o, a) + TranslateY(o, b)
  {
  }

  /** After a redraw with a known preview size, a preview point maps to the
      proportionally placed view point: x / previewWidth == x' / canvasWidth. */
  lemma PointMapsProportionally(o: Overlay, canvasWidth: int, canvasHeight: int, x: real, y: real)
    requires o.previewWidth != 0 && o.previewHeight != 0
    ensures TranslateX(UpdateScale(o, canvasWidth, canvasHeight), x) * o.previewWidth as real == x * canvasWidth as real
    ensures TranslateY(UpdateScale(o, canvasWidth, canvasHeight), y) * o.previewHeight as real == y * canvasHeight as real
  {
  }

  /** The operations a caller can issue on an overlay, in sequence. A redraw
      contributes its state change, the scale update. */
  datatype Op = ClearOp | AddOp(g: Graphic) | RemoveOp(g: Graphic) | RedrawOp(canvasWidth: int, canvasHeight: int)

  function Apply(o: Overlay, op: Op): Overlay {
    match op
    case ClearOp => Clear(o)
    case AddOp(g) => Add(o, g)
    case RemoveOp(g) => Remove(o, g)
    case RedrawOp(w, h) => UpdateScale(o, w, h)
  }

  function ApplyAll(o: Overlay, ops: seq<Op>): Overlay
    decreases |ops|
  {
    if |ops| == 0 then o else ApplyAll(Apply(o, ops[0]), ops[1..])
  }

  /** Number of mutations (`clear`, `add`, `remove`) in `ops`. */
  function Mutations(ops: seq<Op>): nat
    decreases |ops|
  {
    if |ops| == 0 then 0 else (if ops[0].RedrawOp? then 0 else 1) + Mutations(ops[1..])
  }

  /** Every mutation issues exactly one redraw request; redraws issue none. */
  lemma {:induction false} RedrawRequestsCountMutations(o: Overlay, ops: seq<Op>)
    ensures ApplyAll(o, ops).redrawRequests == o.redrawRequests + Mutations(ops)
    decreases |ops|
  {
    if |ops| > 0 {
      RedrawRequestsCountMutations(Apply(o, ops[0]), ops[1..]);
    }
  }

  /** No operation changes the preview size, and while a preview side is 0 the
      scale factors never move: from the initial state they stay 1.0. */
  lemma {:induction false} ScaleFixedWithoutPreviewSize(o: Overlay, ops: seq<Op>)
    requires o.previewWidth == 0 || o.previewHeight == 0
    ensures ApplyAll(o, ops).previewWidth == o.previewWidth
    ensures ApplyAll(o, ops).previewHeight == o.previewHeight
    ensures ApplyAll(o, ops).widthScaleFactor == o.widthScaleFactor
    ensures ApplyAll(o, ops).heightScaleFactor == o.heightScaleFactor
    decreases |ops|
  {
    if |ops| > 0 {
      ScaleFixedWithoutPreviewSize(Apply(o, ops[0]), ops[1..]);
    }
  }

  /** Adding the graphics of a duplicate-free sequence, one by one. */
  function AddEach(o: Overlay, gs: seq<Graphic>): (r: Overlay)
    ensures r.graphics == o.graphics + set g | g in gs
    ensures r.redrawRequests == o.redrawRequests + |gs|
    ensures r.(graphics := o.graphics, redrawRequests := o.redrawRequests) == o
    decreases |gs|
  {
    if |gs| == 0 then o else AddEach(Add(o, gs[0]), gs[1..])
  }

  /** Adding N distinct graphics to an empty overlay leaves exactly N held. */
  lemma AddEachCount(o: Overlay, gs: seq<Graphic>)
    requires o.graphics == {}
    requires forall i, j :: 0 <= i < j < |gs| ==> gs[i] != gs[j]
    ensures |AddEach(o, gs).graphics| == |gs|
  {
    IterationOrderLength(gs, set g | g in gs);
  }
}
