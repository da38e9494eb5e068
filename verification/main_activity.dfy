/** `MainActivity`: the capture flow (view size, photo fit and centring) and
    the handlers that turn recognition results into overlay graphics. The
    camera, the files, the detectors and the model interpreter are outside
    the model: their results arrive as parameters. */
module MainActivity {
  import opened Options
  import opened Vision
  import opened GraphicOverlay
  import opened Labeling
  import BitmapFit

  /** Request code of the camera intent. */
  const INTENT_PHOTO: int := 1001

  /** `Activity.RESULT_OK`. */
  const RESULT_OK: int := -1

  /** The activity's state. `nextRef` hands out identities for the graphic
      objects the handlers create; `toasts` records the notices shown; `photo`
      is what the image view shows; `translations` records the offsets passed
      to the overlay's `translate`, whose effect is not part of this model. */
  datatype Activity = Activity(
    overlay: Overlay,
    imageMaxWidth: int,
    imageMaxHeight: int,
    nextRef: nat,
    toasts: seq<string>,
    photo: Option<BitmapFit.Size>,
    translations: seq<(real, real)>)

  /** Every graphic held was created before `nextRef`, so the graphics a
      handler creates are new objects, distinct from every graphic held. The
      handlers keep this invariant. */
  predicate RefsFresh(a: Activity) {
    forall g :: g in a.overlay.graphics ==> g.ref < a.nextRef
  }

  /** `setImageViewSize`: each maximum side takes the view's side only while
      it is still 0. */
  function SetImageViewSize(a: Activity, viewWidth: int, viewHeight: int): (r: Activity)
    ensures a.imageMaxWidth != 0 ==> r.imageMaxWidth == a.imageMaxWidth
    ensures a.imageMaxWidth == 0 ==> r.imageMaxWidth == viewWidth
    ensures a.imageMaxHeight != 0 ==> r.imageMaxHeight == a.imageMaxHeight
    ensures a.imageMaxHeight == 0 ==> r.imageMaxHeight == viewHeight
    ensures r.(imageMaxWidth := a.imageMaxWidth, imageMaxHeight := a.imageMaxHeight) == a
  {
    a.(imageMaxWidth := if a.imageMaxWidth == 0 then viewWidth else a.imageMaxWidth,
       imageMaxHeight := if a.imageMaxHeight == 0 then viewHeight else a.imageMaxHeight)
  }

  /** `setImageViewSize` called once per capture, with the view's size at
      that moment. */
  function SetImageViewSizes(a: Activity, viewSizes: seq<(int, int)>): Activity
    decreases |viewSizes|
  {
    if |viewSizes| == 0 then a
    else SetImageViewSizes(SetImageViewSize(a, viewSizes[0].0, viewSizes[0].1), viewSizes[1..])
  }

  /** Once a maximum side is non-zero, later calls never change it, whatever
      size the view reports. */
  lemma {:induction false} ImageMaxSizeSticks(a: Activity, viewSizes: seq<(int, int)>)
    ensures a.imageMaxWidth != 0 ==> SetImageViewSizes(a, viewSizes).imageMaxWidth == a.imageMaxWidth
    ensures a.imageMaxHeight != 0 ==> SetImageViewSizes(a, viewSizes).imageMaxHeight == a.imageMaxHeight
    decreases |viewSizes|
  {
    if |viewSizes| > 0 {
      ImageMaxSizeSticks(SetImageViewSize(a, viewSizes[0].0, viewSizes[0].1), viewSizes[1..]);
    }
  }

  /** The "add photo" menu action, up to launching the camera: the overlay is
      cleared and the maximum size recorded. */
  function StartCapture(a: Activity, viewWidth: int, viewHeight: int): (r: Activity)
    ensures r.overlay.graphics == {}
    ensures r.overlay.redrawRequests == a.overlay.redrawRequests + 1
    ensures r.overlay.(graphics := a.overlay.graphics, redrawRequests := a.overlay.redrawRequests) == a.overlay
    ensures r.imageMaxWidth == if a.imageMaxWidth == 0 then viewWidth else a.imageMaxWidth
    ensures r.imageMaxHeight == if a.imageMaxHeight == 0 then viewHeight else a.imageMaxHeight
    ensures r.(overlay := a.overlay, imageMaxWidth := a.imageMaxWidth, imageMaxHeight := a.imageMaxHeight) == a
  {
    SetImageViewSize(a.(overlay := Clear(a.overlay)), viewWidth, viewHeight)
  }

  /** `onActivityResult` for a decoded photo of the given size. A successful
      capture shows the fitted photo and passes the centring offset to the
      overlay; a cancelled one only shows "Camera Canceled"; another request
      code is ignored. The maximum size must be known (set when the capture
      started) and the photo must have decoded. */
  function OnActivityResult(a: Activity, requestCode: int, resultCode: int, decodedWidth: int, decodedHeight: int): (r: Activity)
    requires requestCode == INTENT_PHOTO && resultCode == RESULT_OK ==>
      a.imageMaxWidth > 0 && a.imageMaxHeight > 0 && decodedWidth > 0 && decodedHeight > 0
    ensures requestCode != INTENT_PHOTO ==> r == a
    ensures requestCode == INTENT_PHOTO && resultCode != RESULT_OK ==>
      r == a.(toasts := a.toasts + ["Camera Canceled"])
    ensures requestCode == INTENT_PHOTO && resultCode == RESULT_OK ==>
      r.photo == Some(BitmapFit.GetScaledBitmap(BitmapFit.Size(decodedWidth as real, decodedHeight as real),
                                                a.imageMaxWidth as real, a.imageMaxHeight as real))
      && r.photo.value.width <= a.imageMaxWidth as real && r.photo.value.height <= a.imageMaxHeight as real
      && (r.photo.value.width == a.imageMaxWidth as real || r.photo.value.height == a.imageMaxHeight as real)
      && |r.translations| == |a.translations| + 1
      && r.translations[..|a.translations|] == a.translations
      && 2.0 * r.translations[|a.translations|].0 + r.photo.value.width == a.imageMaxWidth as real
      && 2.0 * r.translations[|a.translations|].1 + r.photo.value.height == a.imageMaxHeight as real
      && r.translations[|a.translations|].0 >= 0.0 && r.translations[|a.translations|].1 >= 0.0
      && r.(photo := a.photo, translations := a.translations) == a
  {
    if requestCode != INTENT_PHOTO then a
    else if resultCode == RESULT_OK then
      var maxWidth := a.imageMaxWidth as real;
      var maxHeight := a.imageMaxHeight as real;
      var capturePhoto := BitmapFit.GetScaledBitmap(BitmapFit.Size(decodedWidth as real, decodedHeight as real), maxWidth, maxHeight);
      var offset := BitmapFit.CenteringOffset(maxWidth, maxHeight, capturePhoto);
      a.(photo := Some(capturePhoto), translations := a.translations + [offset])
    else
      a.(toasts := a.toasts + ["Camera Canceled"])
  }

  /** The elements of some lines, line by line, in order. */
  function LineElements(lines: seq<Line>): seq<Element>
    decreases |lines|
  {
    if |lines| == 0 then [] else lines[0].elements + LineElements(lines[1..])
  }

  /** The elements of some blocks, block by block, in order. */
  function BlockElements(blocks: seq<Block>): seq<Element>
    decreases |blocks|
  {
    if |blocks| == 0 then [] else LineElements(blocks[0].lines) + BlockElements(blocks[1..])
  }

  /** An element is listed exactly when some line holds it. */
  lemma {:induction false} LineElementsMembership(lines: seq<Line>, e: Element)
    ensures e in LineElements(lines) <==> exists j :: 0 <= j < |lines| && e in lines[j].elements
    decreases |lines|
  {
    if |lines| > 0 {
      LineElementsMembership(lines[1..], e);
      if e in LineElements(lines[1..]) {
        var j :| 0 <= j < |lines[1..]| && e in lines[1..][j].elements;
        assert e in lines[j + 1].elements;
      }
      if exists j :: 0 <= j < |lines| && e in lines[j].elements {
        var j :| 0 <= j < |lines| && e in lines[j].elements;
        if j > 0 {
          assert lines[1..][j - 1] == lines[j];
        }
      }
    }
  }

  /** An element is listed exactly when some line of some block holds it. */
  lemma {:induction false} BlockElementsMembership(blocks: seq<Block>, e: Element)
    ensures e in BlockElements(blocks) <==>
      exists b, j :: 0 <= b < |blocks| && 0 <= j < |blocks[b].lines| && e in blocks[b].lines[j].elements
    decreases |blocks|
  {
    if |blocks| > 0 {
      BlockElementsMembership(blocks[1..], e);
      LineElementsMembership(blocks[0].lines, e);
      if e in BlockElements(blocks[1..]) {
        var b, j :| 0 <= b < |blocks[1..]| && 0 <= j < |blocks[1..][b].lines| && e in blocks[1..][b].lines[j].elements;
        assert e in blocks[b + 1].lines[j].elements;
      }
      if exists b, j :: 0 <= b < |blocks| && 0 <= j < |blocks[b].lines| && e in blocks[b].lines[j].elements {
        var b, j :| 0 <= b < |blocks| && 0 <= j < |blocks[b].lines| && e in blocks[b].lines[j].elements;
        if b > 0 {
          assert blocks[1..][b - 1] == blocks[b];
        }
      }
    }
  }

  /** New graphic objects for `anns`, with consecutive fresh identities. */
  function NewGraphics(anns: seq<Annotation>, firstRef: nat): (gs: seq<Graphic>)
    ensures |gs| == |anns|
    ensures forall k :: 0 <= k < |gs| ==> gs[k] == Graphic(firstRef + k, anns[k])
  {
    seq(|anns|, k requires 0 <= k < |anns| => Graphic(firstRef + k, anns[k]))
  }

  /** A graphic is among the new ones exactly when it is the one made for
      some annotation. */
  lemma NewGraphicsMember(anns: seq<Annotation>, firstRef: nat, g: Graphic)
    ensures g in NewGraphics(anns, firstRef) <==> exists k :: 0 <= k < |anns| && g == Graphic(firstRef + k, anns[k])
  {
    var gs := NewGraphics(anns, firstRef);
    if g in gs {
      var k :| 0 <= k < |gs| && gs[k] == g;
    }
    if exists k :: 0 <= k < |anns| && g == Graphic(firstRef + k, anns[k]) {
      var k :| 0 <= k < |anns| && g == Graphic(firstRef + k, anns[k]);
      assert gs[k] == g;
    }
  }

  /** The overlay holds exactly the graphics made for `anns` from `firstRef` on. */
  ghost predicate HoldsExactly(graphics: set<Graphic>, firstRef: nat, anns: seq<Annotation>) {
    forall g :: g in graphics <==> exists k :: 0 <= k < |anns| && g == Graphic(firstRef + k, anns[k])
  }

  /** The text annotations for some elements, in order. */
  function TextAnnotations(elements: seq<Element>): (anns: seq<Annotation>)
    ensures |anns| == |elements|
    ensures forall k :: 0 <= k < |anns| ==> anns[k] == TextAnnotation(elements[k])
  {
    seq(|elements|, k requires 0 <= k < |elements| => TextAnnotation(elements[k]))
  }

  /** The face annotations for some faces, in order. */
  function FaceAnnotations(faces: seq<Face>): (anns: seq<Annotation>)
    ensures |anns| == |faces|
    ensures forall k :: 0 <= k < |anns| ==> anns[k] == FaceAnnotation(faces[k])
  {
    seq(|faces|, k requires 0 <= k < |faces| => FaceAnnotation(faces[k]))
  }

  /** `clear()`, then for each annotation: construct its graphic (whose
      constructor requests a redraw) and `add` it. Afterwards the overlay
      holds exactly one new graphic per annotation. */
  function ReplaceGraphics(a: Activity, anns: seq<Annotation>): (r: Activity)
    ensures HoldsExactly(r.overlay.graphics, a.nextRef, anns)
    ensures |r.overlay.graphics| == |anns|
    ensures r.overlay.redrawRequests == a.overlay.redrawRequests + 1 + 2 * |anns|
    ensures r.nextRef == a.nextRef + |anns|
    ensures RefsFresh(r)
    ensures r.overlay.(graphics := a.overlay.graphics, redrawRequests := a.overlay.redrawRequests) == a.overlay
    ensures r.(overlay := a.overlay, nextRef := a.nextRef) == a
  {
    var gs := NewGraphics(anns, a.nextRef);
    var cleared := Clear(a.overlay);
    var filled := AddEach(cleared, gs);
    AddEachCount(cleared, gs);
    forall g ensures g in filled.graphics <==> exists k :: 0 <= k < |anns| && g == Graphic(a.nextRef + k, anns[k]) {
      NewGraphicsMember(anns, a.nextRef, g);
    }
    a.(overlay := filled.(redrawRequests := filled.redrawRequests + |anns|), nextRef := a.nextRef + |anns|)
  }

  /** `processTextRecognitionResult`: with no blocks, only "Text not found"
      is shown; otherwise the overlay is cleared and then holds one text
      graphic per element, over all blocks and lines. */
  function ProcessTextRecognitionResult(a: Activity, texts: VisionText): (r: Activity)
    ensures |texts.blocks| == 0 ==> r == a.(toasts := a.toasts + ["Text not found"])
    ensures |texts.blocks| > 0 ==>
      var elements := BlockElements(texts.blocks);
      |r.overlay.graphics| == |elements|
      && HoldsExactly(r.overlay.graphics, a.nextRef, TextAnnotations(elements))
      && r.overlay.redrawRequests == a.overlay.redrawRequests + 1 + 2 * |elements|
      && r.nextRef == a.nextRef + |elements|
      && r.overlay.(graphics := a.overlay.graphics, redrawRequests := a.overlay.redrawRequests) == a.overlay
      && r.(overlay := a.overlay, nextRef := a.nextRef) == a
    ensures RefsFresh(a) ==> RefsFresh(r)
  {
    if |texts.blocks| == 0 then
      a.(toasts := a.toasts + ["Text not found"])
    else
      var elements := BlockElements(texts.blocks);
      ReplaceGraphics(a, TextAnnotations(elements))
  }

  /** Under `HoldsExactly`, some held graphic shows `x` exactly when `x` is
      one of the annotations. */
  lemma ShownIffListed(graphics: set<Graphic>, firstRef: nat, anns: seq<Annotation>, x: Annotation)
    requires HoldsExactly(graphics, firstRef, anns)
    ensures (exists g :: g in graphics && g.annotation == x) <==> x in anns
  {
    if x in anns {
      var k :| 0 <= k < |anns| && anns[k] == x;
      assert Graphic(firstRef + k, anns[k]) in graphics;
    }
    if exists g :: g in graphics && g.annotation == x {
      var g :| g in graphics && g.annotation == x;
      var k :| 0 <= k < |anns| && g == Graphic(firstRef + k, anns[k]);
      assert anns[k] == x;
    }
  }

  /** A text annotation is listed exactly when its element is. */
  lemma TextAnnotationListed(elements: seq<Element>, e: Element)
    ensures TextAnnotation(e) in TextAnnotations(elements) <==> e in elements
  {
    var anns := TextAnnotations(elements);
    if TextAnnotation(e) in anns {
      var k :| 0 <= k < |anns| && anns[k] == TextAnnotation(e);
      assert elements[k] == e;
    }
    if e in elements {
      var k :| 0 <= k < |elements| && elements[k] == e;
      assert anns[k] == TextAnnotation(e);
    }
  }

  /** Every held text graphic shows an element of the result, and every
      element of any line of any block is shown. */
  lemma TextGraphicsAreTheElements(a: Activity, texts: VisionText, e: Element)
    requires |texts.blocks| > 0
    ensures (exists g :: g in ProcessTextRecognitionResult(a, texts).overlay.graphics && g.annotation == TextAnnotation(e))
      <==> exists b, j :: 0 <= b < |texts.blocks| && 0 <= j < |texts.blocks[b].lines| && e in texts.blocks[b].lines[j].elements
  {
    var elements := BlockElements(texts.blocks);
    ShownIffListed(ProcessTextRecognitionResult(a, texts).overlay.graphics, a.nextRef, TextAnnotations(elements), TextAnnotation(e));
    TextAnnotationListed(elements, e);
    BlockElementsMembership(texts.blocks, e);
  }

  /** `processFaceDetection`: with no faces, only "Face not found" is shown;
      otherwise the overlay is cleared and then holds one face graphic per
      face, in the list's order of creation. */
  function ProcessFaceDetection(a: Activity, faces: seq<Face>): (r: Activity)
    ensures |faces| == 0 ==> r == a.(toasts := a.toasts + ["Face not found"])
    ensures |faces| > 0 ==>
      |r.overlay.graphics| == |faces|
      && HoldsExactly(r.overlay.graphics, a.nextRef, FaceAnnotations(faces))
      && r.overlay.redrawRequests == a.overlay.redrawRequests + 1 + 2 * |faces|
      && r.nextRef == a.nextRef + |faces|
      && r.overlay.(graphics := a.overlay.graphics, redrawRequests := a.overlay.redrawRequests) == a.overlay
      && r.(overlay := a.overlay, nextRef := a.nextRef) == a
    ensures RefsFresh(a) ==> RefsFresh(r)
  {
    if |faces| == 0 then
      a.(toasts := a.toasts + ["Face not found"])
    else
      ReplaceGraphics(a, FaceAnnotations(faces))
  }

  /** What `processImageLabeling` ends in: normally, or with the
      `ArrayIndexOutOfBoundsException` raised when the first output row is
      shorter than the label list (the overlay has been cleared by then). */
  datatype LabelingOutcome = Labeled(activity: Activity) | IndexOutOfBounds(activity: Activity)

  /** `processImageLabeling`: with no output rows, only "Not found" is shown;
      otherwise the overlay is cleared and then holds the single label
      graphic of the top label of the first row. `reading` is
      `SignedAsWritten` for the source's behaviour. */
  function ProcessImageLabeling(a: Activity, labels: seq<seq<bv8>>, labelList: seq<string>, reading: ByteReading): (r: LabelingOutcome)
    ensures |labels| == 0 ==> r == Labeled(a.(toasts := a.toasts + ["Not found"]))
    ensures |labels| > 0 && |labels[0]| < |labelList| ==>
      r.IndexOutOfBounds? && r.activity.overlay.graphics == {}
      && r.activity == a.(overlay := Clear(a.overlay))
    ensures |labels| > 0 && |labels[0]| >= |labelList| ==>
      var top := TopLabel(labelList, labels[0], reading);
      r.Labeled?
      && r.activity.overlay.graphics == {Graphic(a.nextRef, LabelAnnotation(top.0, top.1))}
      && r.activity.overlay.redrawRequests == a.overlay.redrawRequests + 2
      && r.activity.nextRef == a.nextRef + 1
      && r.activity.overlay.(graphics := a.overlay.graphics, redrawRequests := a.overlay.redrawRequests) == a.overlay
      && r.activity.(overlay := a.overlay, nextRef := a.nextRef) == a
    ensures RefsFresh(a) ==> RefsFresh(r.activity)
  {
    if |labels| == 0 then
      Labeled(a.(toasts := a.toasts + ["Not found"]))
    else
      var cleared := a.(overlay := Clear(a.overlay));
      if |labels[0]| < |labelList| then
        IndexOutOfBounds(cleared)
      else
        var top := TopLabel(labelList, labels[0], reading);
        var labelGraphic := Graphic(a.nextRef, LabelAnnotation(top.0, top.1));
        Labeled(cleared.(overlay := Add(cleared.overlay, labelGraphic), nextRef := a.nextRef + 1))
  }

  /** The shown label is the classifier's pick: a label with a strictly
      positive score that no other beats and no earlier one ties, or the
      empty label with score 0 when every score is at most 0. */
  lemma LabelGraphicShowsTopLabel(a: Activity, labels: seq<seq<bv8>>, labelList: seq<string>, reading: ByteReading)
    requires |labels| > 0 && |labels[0]| >= |labelList|
    ensures var r := ProcessImageLabeling(a, labels, labelList, reading);
      var s := Numerators(labels[0], |labelList|, reading);
      exists g :: (r.activity.overlay.graphics == {g} && g.annotation.LabelAnnotation?
      && ((exists k: nat :: IsTopIndex(s, k) && g.annotation == LabelAnnotation(labelList[k], s[k] as real / 255.0))
          || ((forall i :: 0 <= i < |s| ==> s[i] <= 0) && g.annotation == LabelAnnotation("", 0.0))))
  {
    var top := TopLabel(labelList, labels[0], reading);
    var g := Graphic(a.nextRef, LabelAnnotation(top.0, top.1));
    assert ProcessImageLabeling(a, labels, labelList, reading).activity.overlay.graphics == {g};
  }
}
