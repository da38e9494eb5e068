/** `FaceGraphic`: draws one detected face, its box, its smile probability and
    the eye landmarks it has. */
module FaceGraphic {
  import opened Options
  import opened Geometry
  import opened Vision
  import opened Canvas

  const TEXT_COLOR: bv32 := RED
  const TEXT_SIZE: real := 30.0
  const STROKE_WIDTH: real := 4.0
  /** Radius of the circle marking a landmark. */
  const LANDMARK_RADIUS: real := 10.0

  /** Outline paint for the box, fixed by the constructor. */
  const RectPaint: Paint := Paint(TEXT_COLOR, Some(STROKE_WIDTH), None)

  /** Fill paint for texts and landmark circles, fixed by the constructor. */
  const FacePaint: Paint := Paint(TEXT_COLOR, None, Some(TEXT_SIZE))

  /** How many of the two drawn landmarks (left eye, right eye) the face has. */
  function PresentEyes(face: Face): nat {
    (if LeftEye in face.landmarks then 1 else 0) + (if RightEye in face.landmarks then 1 else 0)
  }

  /** `drawLandmarkPosition`: nothing for an absent landmark; otherwise a circle
      at its position followed by its name at the same position. */
  function DrawLandmarkPosition(face: Face, id: Landmark, text: string): (cmds: seq<Command>)
    ensures id !in face.landmarks <==> cmds == []
    ensures id in face.landmarks ==>
      var p := face.landmarks[id];
      |cmds| == 2
      && cmds[0] == DrawCircle(p.x, p.y, LANDMARK_RADIUS, FacePaint)
      && cmds[1] == DrawText(Plain(text), p.x, p.y, FacePaint)
  {
    if id in face.landmarks then
      var p := face.landmarks[id];
      [DrawCircle(p.x, p.y, LANDMARK_RADIUS, FacePaint), DrawText(Plain(text), p.x, p.y, FacePaint)]
    else
      []
  }

  /** `draw`: the box as reported (no overlay scale is applied), the smile
      percentage at the box's bottom-left corner, then the left eye and the
      right eye, in that order. */
  function Draw(face: Face): (cmds: seq<Command>)
    ensures |cmds| == 2 + 2 * PresentEyes(face)
    ensures cmds[0] == DrawRect(ToRectF(face.boundingBox), RectPaint)
    ensures cmds[1] == DrawText(SmilePercent(face.smilingProbability * 100.0),
                                face.boundingBox.left as real, face.boundingBox.bottom as real, FacePaint)
    ensures cmds[2..] == DrawLandmarkPosition(face, LeftEye, "LeftEye")
                         + DrawLandmarkPosition(face, RightEye, "RightEye")
    ensures forall c :: c in cmds ==> c.paint.color == TEXT_COLOR
  {
    var faceRect := ToRectF(face.boundingBox);
    [DrawRect(faceRect, RectPaint),
     DrawText(SmilePercent(face.smilingProbability * 100.0), faceRect.left, faceRect.bottom, FacePaint)]
    + DrawLandmarkPosition(face, LeftEye, "LeftEye")
    + DrawLandmarkPosition(face, RightEye, "RightEye")
  }

  /** True when the command list names `text` at `p`. */
  predicate LabelsAt(cmds: seq<Command>, text: string, p: PointF) {
    exists i :: 0 <= i < |cmds| && cmds[i] == DrawText(Plain(text), p.x, p.y, FacePaint)
  }

  /** The drawing shows the left eye, at its true position, exactly when the
      face has a left eye. */
  lemma LeftEyeShownIff(face: Face)
    ensures LeftEye in face.landmarks <==> exists i :: 0 <= i < |Draw(face)| && Draw(face)[i].DrawText? && Draw(face)[i].caption == Plain("LeftEye")
    ensures LeftEye in face.landmarks ==> LabelsAt(Draw(face), "LeftEye", face.landmarks[LeftEye])
  {
    var cmds := Draw(face);
    if LeftEye in face.landmarks {
      assert cmds[3] == DrawText(Plain("LeftEye"), face.landmarks[LeftEye].x, face.landmarks[LeftEye].y, FacePaint);
    } else {
      forall i | 0 <= i < |cmds| && cmds[i].DrawText?
        ensures cmds[i].caption != Plain("LeftEye")
      {
        if i >= 2 {
          assert cmds[i] == cmds[2..][i - 2];
        }
      }
    }
  }

  /** The drawing shows the right eye, at its true position, exactly when the
      face has a right eye. */
  lemma RightEyeShownIff(face: Face)
    ensures RightEye in face.landmarks <==> exists i :: 0 <= i < |Draw(face)| && Draw(face)[i].DrawText? && Draw(face)[i].caption == Plain("RightEye")
    ensures RightEye in face.landmarks ==> LabelsAt(Draw(face), "RightEye", face.landmarks[RightEye])
  {
    var cmds := Draw(face);
    if RightEye in face.landmarks {
      var k := |cmds| - 1;
      assert cmds[k] == cmds[2..][k - 2];
      assert cmds[k] == DrawText(Plain("RightEye"), face.landmarks[RightEye].x, face.landmarks[RightEye].y, FacePaint);
    } else {
      forall i | 0 <= i < |cmds| && cmds[i].DrawText?
        ensures cmds[i].caption != Plain("RightEye")
      {
        if i >= 2 {
          assert cmds[i] == cmds[2..][i - 2];
        }
      }
    }
  }

  /** Landmarks other than the two eyes never influence the drawing: faces that
      agree on box, smile probability and eyes draw the same commands. */
  lemma DrawIgnoresOtherLandmarks(f1: Face, f2: Face)
    requires f1.boundingBox == f2.boundingBox && f1.smilingProbability == f2.smilingProbability
    requires LeftEye in f1.landmarks <==> LeftEye in f2.landmarks
    requires RightEye in f1.landmarks <==> RightEye in f2.landmarks
    requires LeftEye in f1.landmarks ==> f1.landmarks[LeftEye] == f2.landmarks[LeftEye]
    requires RightEye in f1.landmarks ==> f1.landmarks[RightEye] == f2.landmarks[RightEye]
    ensures Draw(f1) == Draw(f2)
  {
  }
}
