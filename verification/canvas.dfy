/** What a graphic asks the canvas to do, recorded as data instead of pixels. */
module Canvas {
  import opened Options
  import opened Geometry

  /** `Color.RED` as a 32-bit ARGB value. */
  const RED: bv32 := 0xFFFF_0000

  /** The paint attributes a graphic's constructor sets. `stroke == Some(w)`
      stands for `style = STROKE` with `strokeWidth = w`; `None` in either field
      means the constructor left Android's default in place. */
  datatype Paint = Paint(color: bv32, stroke: Option<real>, textSize: Option<real>)

  /** The string of a text command. The smile caption is the text
      `"Smile: " + percent + "%"`, with the float rendering of `percent`. */
  datatype Caption = Plain(text: string) | SmilePercent(percent: real)

  /** One `Canvas.drawRect`, `drawText` or `drawCircle` call. */
  datatype Command =
    | DrawRect(rect: RectF, paint: Paint)
    | DrawText(caption: Caption, x: real, y: real, paint: Paint)
    | DrawCircle(cx: real, cy: real, radius: real, paint: Paint)
}
