/** `TextGraphic`: draws one recognised text element, its box and its string. */
module TextGraphic {
  import opened Options
  import opened Geometry
  import opened Vision
  import opened Canvas

  const TEXT_COLOR: bv32 := RED
  const TEXT_SIZE: real := 50.0
  const STROKE_WIDTH: real := 4.0

  /** Outline paint for the box, fixed by the constructor. */
  const RectPaint: Paint := Paint(TEXT_COLOR, Some(STROKE_WIDTH), None)

  /** Fill paint for the string, fixed by the constructor. */
  const TextPaint: Paint := Paint(TEXT_COLOR, None, Some(TEXT_SIZE))

  /** `draw`: the box as reported (no overlay scale or translation is applied),
      then the string anchored at the box's bottom-left corner. */
  function Draw(element: Element): (cmds: seq<Command>)
    ensures |cmds| == 2 && cmds[0].DrawRect? && cmds[1].DrawText?
    ensures cmds[0].rect.left == element.boundingBox.left as real
    ensures cmds[0].rect.top == element.boundingBox.top as real
    ensures cmds[0].rect.right == element.boundingBox.right as real
    ensures cmds[0].rect.bottom == element.boundingBox.bottom as real
    ensures cmds[1].caption == Plain(element.text)
    ensures cmds[1].x == cmds[0].rect.left && cmds[1].y == cmds[0].rect.bottom
    ensures cmds[0].paint.stroke == Some(STROKE_WIDTH) && cmds[0].paint.textSize.None?
    ensures cmds[1].paint.textSize == Some(TEXT_SIZE) && cmds[1].paint.stroke.None?
    ensures forall c :: c in cmds ==> c.paint.color == TEXT_COLOR
  {
    var rect := ToRectF(element.boundingBox);
    [DrawRect(rect, RectPaint), DrawText(Plain(element.text), rect.left, rect.bottom, TextPaint)]
  }

  /** Reads the element back from the two commands `Draw` emits; `None` for
      any other command list. */
  function ElementOf(cmds: seq<Command>): Option<Element> {
    if |cmds| == 2 && cmds[0].DrawRect? && cmds[1].DrawText? && cmds[1].caption.Plain? then
      var r := cmds[0].rect;
      Some(Element(cmds[1].caption.text, Rect(r.left.Floor, r.top.Floor, r.right.Floor, r.bottom.Floor)))
    else
      None
  }

  /** The commands carry the whole element: nothing of it is lost or altered. */
  lemma DrawRoundTrip(element: Element)
    ensures ElementOf(Draw(element)) == Some(element)
  {
  }

  /** Hence two elements draw alike only when they are the same element. */
  lemma DrawInjective(e1: Element, e2: Element)
    ensures Draw(e1) == Draw(e2) <==> e1 == e2
  {
    if Draw(e1) == Draw(e2) {
      DrawRoundTrip(e1);
      DrawRoundTrip(e2);
    }
  }
}
