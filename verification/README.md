# mlkit-android overlay and recognition core, modelled in Dafny

This project models the sequential logic inside a small Android ML Kit sample app. The app photographs something, fits the photo to the screen, and has handlers for text recognition, face detection and image labelling results that draw those results over the photo. The model covers five parts:

- **GraphicOverlay** (`graphic_overlay.dfy`). The overlay view holds a set of graphics compared by identity. It also holds the preview size and the per-axis scale factors. Its operations are `clear`, `add`, `remove` and the `onDraw` scale update and drawing pass. It provides the `scaleX`/`scaleY`/`translateX`/`translateY` helpers. Each `postInvalidate` call is counted in `redrawRequests`.
- **Recognition-result handling** (`main_activity.dfy`, `labeling.dfy`).
  - Text results are flattened from blocks to lines to elements, one graphic per element.
  - Faces map one-to-one to graphics.
  - Image labelling is an argmax over the classifier's output bytes.
  - An empty result only shows a notice. Any other result clears and repopulates the overlay.
- **Tensor packing** (`tensor.dfy`). `convertBitmapToByteBuffer` turns 224x224 ARGB pixels into a 150528-byte buffer of red, green and blue bytes. It is written as an imperative nested loop with loop invariants.
- **Bitmap fit** (`bitmap_fit.dfy`, `main_activity.dfy`). This covers `getScaledBitmap` (rotate if landscape, then scale uniformly by the larger ratio), `setImageViewSize`, the centring offset and the cancel branch of `onActivityResult`.
- **Draw commands** (`text_graphic.dfy`, `face_graphic.dfy`). `TextGraphic.draw` and `FaceGraphic.draw` are functions that return the list of canvas calls they make (rectangle, text, circle), together with the fixed paints.

Shared types live in `options.dfy`, `geometry.dfy`, `vision.dfy` (the recognition results, which are inputs) and `canvas.dfy`.

Modelling conventions:
- A graphic object's identity is the `ref` field of `Graphic(ref, annotation)`. The handlers take fresh refs from `Activity.nextRef`.
- Floats are reals.
- Pixels are `bv32` and buffer bytes are `bv8`.
- A `Toast` is recorded in `Activity.toasts`.
- The offset passed to the overlay's `translate` is recorded in `Activity.translations`. What `translate` does is not modelled.

Behaviour of the code as written that the model keeps:
- Text and face graphics draw raw bounding-box and landmark coordinates. Neither applies the overlay's scale transform. So a text box at (10,10)-(100,40) is drawn there whatever the scale factors are.
- The overlay has no preview-size setter. The preview size stays 0 from construction, so the scale factors stay 1.0 (`GraphicOverlay.ScaleFixedWithoutPreviewSize`). The model carries the preview size as state, so callers can supply other states.
- `onDraw` recomputes the scale when both preview sides are non-zero (`!= 0`), not when they are positive.

## Model

| member | source | states |
|---|---|---|
| GraphicOverlay.Initial | starter/app/src/main/java/jp/kappa0923/android/mlkit/GraphicOverlay.kt:36-41 | a new overlay holds no graphics, has preview size 0x0 and scale factors 1.0 |
| GraphicOverlay.Clear | starter/app/src/main/java/jp/kappa0923/android/mlkit/GraphicOverlay.kt:92-97 | the set becomes empty whatever it held; preview size and scale factors are untouched; one redraw is requested |
| GraphicOverlay.Add | starter/app/src/main/java/jp/kappa0923/android/mlkit/GraphicOverlay.kt:102-107 | the graphic becomes a member, no other membership changes, the size grows by one only if it was absent, one redraw is requested |
| GraphicOverlay.Remove | starter/app/src/main/java/jp/kappa0923/android/mlkit/GraphicOverlay.kt:112-117 | exactly that graphic is removed; removing an absent graphic leaves the set unchanged; one redraw is requested |
| GraphicOverlay.AddThenRemove | starter/app/src/main/java/jp/kappa0923/android/mlkit/GraphicOverlay.kt:102-117 | removing a just-added graphic restores the previous set |
| GraphicOverlay.AddTwice | starter/app/src/main/java/jp/kappa0923/android/mlkit/GraphicOverlay.kt:102-107 | adding the same graphic twice keeps a single entry |
| GraphicOverlay.UpdateScale | starter/app/src/main/java/jp/kappa0923/android/mlkit/GraphicOverlay.kt:127-130 | with both preview sides non-zero, each scale factor times the preview side equals the canvas side; otherwise the overlay is unchanged |
| GraphicOverlay.IterationOrderLength | starter/app/src/main/java/jp/kappa0923/android/mlkit/GraphicOverlay.kt:132-134 | iterating the set without repeats visits exactly as many graphics as it holds |
| GraphicOverlay.OnDraw | starter/app/src/main/java/jp/kappa0923/android/mlkit/GraphicOverlay.kt:123-136 | the scale update comes first; then every held graphic is drawn exactly once, nothing else is drawn, each draw sees the updated factors, and the set is not modified |
| GraphicOverlay.ClearThenDrawIsEmpty | starter/app/src/main/java/jp/kappa0923/android/mlkit/GraphicOverlay.kt:92-136 | a redraw right after clear draws nothing |
| GraphicOverlay.ScaleX | starter/app/src/main/java/jp/kappa0923/android/mlkit/GraphicOverlay.kt:59-61 | a horizontal value is multiplied by the width factor: dividing by a non-zero factor gives it back, and a zero factor gives 0 |
| GraphicOverlay.ScaleY | starter/app/src/main/java/jp/kappa0923/android/mlkit/GraphicOverlay.kt:66-68 | a vertical value is multiplied by the height factor: dividing by a non-zero factor gives it back, and a zero factor gives 0 |
| GraphicOverlay.TranslateX | starter/app/src/main/java/jp/kappa0923/android/mlkit/GraphicOverlay.kt:73-75 | translateX equals scaleX |
| GraphicOverlay.TranslateY | starter/app/src/main/java/jp/kappa0923/android/mlkit/GraphicOverlay.kt:80-82 | translateY equals scaleY |
| GraphicOverlay.TranslateHasNoOffset | starter/app/src/main/java/jp/kappa0923/android/mlkit/GraphicOverlay.kt:73-82 | the translate helpers map 0 to 0 and are additive, so they have no offset term |
| GraphicOverlay.PointMapsProportionally | starter/app/src/main/java/jp/kappa0923/android/mlkit/GraphicOverlay.kt:127-130 | after a scale update with a known preview size, a preview point maps to the proportional view point (x * canvasWidth / previewWidth) |
| GraphicOverlay.RedrawRequestsCountMutations | starter/app/src/main/java/jp/kappa0923/android/mlkit/GraphicOverlay.kt:92-117 | over any sequence of operations, each clear/add/remove issues exactly one redraw request and scale updates issue none |
| GraphicOverlay.ScaleFixedWithoutPreviewSize | starter/app/src/main/java/jp/kappa0923/android/mlkit/GraphicOverlay.kt:127-130 | no operation changes the preview size; while a preview side is 0 the scale factors never change |
| GraphicOverlay.AddEach | starter/app/src/main/java/jp/kappa0923/android/mlkit/GraphicOverlay.kt:102-107 | adding a sequence of graphics yields the old set plus those graphics, with one redraw request each |
| GraphicOverlay.AddEachCount | starter/app/src/main/java/jp/kappa0923/android/mlkit/GraphicOverlay.kt:102-107 | adding N distinct graphics to an empty overlay leaves exactly N graphics |
| TextGraphic.Draw | final/app/src/main/java/jp/kappa0923/android/mlkit/TextGraphic.kt:38-68 | exactly two commands in order: the element's box with its edges unchanged (no scale or translation) in the 4-wide red stroke paint, then the element's string at the box's bottom-left corner in the red 50-size text paint |
| TextGraphic.DrawRoundTrip | final/app/src/main/java/jp/kappa0923/android/mlkit/TextGraphic.kt:63-67 | the element can be read back from the commands, so they lose nothing of it |
| TextGraphic.DrawInjective | final/app/src/main/java/jp/kappa0923/android/mlkit/TextGraphic.kt:63-67 | two elements draw the same commands exactly when they are equal |
| FaceGraphic.DrawLandmarkPosition | final/app/src/main/java/jp/kappa0923/android/mlkit/FaceGraphic.kt:71-78 | an absent landmark yields no commands; a present one yields a radius-10 circle at its position, then its name at the same position |
| FaceGraphic.Draw | final/app/src/main/java/jp/kappa0923/android/mlkit/FaceGraphic.kt:61-69 | the face box unchanged first, then "Smile: P%" with P = probability * 100 at the box's bottom-left corner, then the left eye and then the right eye; 2 + 2 * (eyes present) commands in all, all red |
| FaceGraphic.LeftEyeShownIff | final/app/src/main/java/jp/kappa0923/android/mlkit/FaceGraphic.kt:67-76 | the drawing names "LeftEye" exactly when the face has a left eye, and it names it at the eye's position |
| FaceGraphic.RightEyeShownIff | final/app/src/main/java/jp/kappa0923/android/mlkit/FaceGraphic.kt:68-76 | the drawing names "RightEye" exactly when the face has a right eye, and it names it at the eye's position |
| FaceGraphic.DrawIgnoresOtherLandmarks | final/app/src/main/java/jp/kappa0923/android/mlkit/FaceGraphic.kt:67-68 | landmarks other than the two eyes never affect the drawing |
| Tensor.ConvertBitmapToByteBuffer | final/app/src/main/java/jp/kappa0923/android/mlkit/MainActivity.kt:373-394 | the buffer holds 1*224*224*3 = 150528 bytes; bytes 3k, 3k+1 and 3k+2 are bits 16-23, 8-15 and 0-7 of pixel k (alpha dropped, pixels in order); it equals the reference layout |
| Tensor.LayoutAt | final/app/src/main/java/jp/kappa0923/android/mlkit/MainActivity.kt:384-392 | in the reference layout, pixel k's red, green and blue bytes sit at 3k, 3k+1 and 3k+2 |
| Tensor.PackingMatchesLayout | final/app/src/main/java/jp/kappa0923/android/mlkit/MainActivity.kt:384-392 | a buffer with the per-pixel byte placement is the reference layout |
| Tensor.ChannelsKeepColour | final/app/src/main/java/jp/kappa0923/android/mlkit/MainActivity.kt:388-390 | the three channel bytes rebuild the pixel exactly except for the alpha byte |
| Tensor.UnpackLayout | final/app/src/main/java/jp/kappa0923/android/mlkit/MainActivity.kt:384-392 | unpacking the buffer gives back every pixel, in order, with alpha cleared |
| Tensor.SolidRedPacksToRedTriples | final/app/src/main/java/jp/kappa0923/android/mlkit/MainActivity.kt:388-390 | a pure-red image packs into (255, 0, 0) triples |
| Labeling.SignedValue | final/app/src/main/java/jp/kappa0923/android/mlkit/MainActivity.kt:323 | a Kotlin Byte's value lies in -128..127 and agrees with the raw byte modulo 256 |
| Labeling.Numerator | final/app/src/main/java/jp/kappa0923/android/mlkit/MainActivity.kt:323 | read as written, the value is the byte's two's-complement value (in -128..127, equal to the raw byte modulo 256), so it is negative exactly when the byte is 128 or more; read unsigned, it is the byte's value |
| Labeling.MaskIsNoOp | final/app/src/main/java/jp/kappa0923/android/mlkit/MainActivity.kt:323 | and-ing a byte with 0xff.toByte() leaves it unchanged |
| Labeling.BestIndex | final/app/src/main/java/jp/kappa0923/android/mlkit/MainActivity.kt:320-328 | no pick exactly when no score is above 0; otherwise the pick has a positive score, no score exceeds it, and every earlier score is strictly lower (ties keep the earliest) |
| Labeling.TopIndexUnique | final/app/src/main/java/jp/kappa0923/android/mlkit/MainActivity.kt:324-327 | at most one index satisfies the pick's characterisation |
| Labeling.TopLabel | final/app/src/main/java/jp/kappa0923/android/mlkit/MainActivity.kt:320-328 | the result is the label and score/255 of the pick, or "" and 0 when no score is above 0; the score is never negative |
| Labeling.HighBytesNeverWinAsWritten | final/app/src/main/java/jp/kappa0923/android/mlkit/MainActivity.kt:323-324 | as written, a label whose byte is 128 or more is never picked |
| Labeling.ConfidentLabelDroppedAsWritten | final/app/src/main/java/jp/kappa0923/android/mlkit/MainActivity.kt:320-328 | one label scored by byte 200: as written the result is "" with 0; read unsigned it is that label with 200/255 |
| Labeling.UnsignedPicksLargestByte | final/app/src/main/java/jp/kappa0923/android/mlkit/MainActivity.kt:320-328 | read unsigned, a label is picked whenever some byte is non-zero, and it carries the largest byte |
| BitmapFit.Orient | final/app/src/main/java/jp/kappa0923/android/mlkit/MainActivity.kt:166-172 | the image is rotated (sides swapped) exactly when it is wider than tall; the result is never landscape |
| BitmapFit.ScaleFactor | final/app/src/main/java/jp/kappa0923/android/mlkit/MainActivity.kt:174-175 | the factor is at least both per-axis ratios and equals one of them |
| BitmapFit.ShrinkWithin | final/app/src/main/java/jp/kappa0923/android/mlkit/MainActivity.kt:174-176 | scaling a side by 1/s, with s at least side/max, keeps it within max, and gives exactly max when s is that ratio |
| BitmapFit.GetScaledBitmap | final/app/src/main/java/jp/kappa0923/android/mlkit/MainActivity.kt:155-182 | the scaled photo fits the box on both axes, touches it on at least one, and keeps the oriented aspect ratio |
| BitmapFit.CenteringOffset | starter/app/src/main/java/jp/kappa0923/android/mlkit/MainActivity.kt:89-90 | the offset leaves equal margins: 2 * offset + photo side = max side on each axis |
| BitmapFit.FittedOffsetNonNegative | starter/app/src/main/java/jp/kappa0923/android/mlkit/MainActivity.kt:87-91 | for a fitted photo both offsets are non-negative and at least one is zero |
| MainActivity.SetImageViewSize | starter/app/src/main/java/jp/kappa0923/android/mlkit/MainActivity.kt:199-206 | each max side takes the view's side only while it is 0; nothing else changes |
| MainActivity.ImageMaxSizeSticks | starter/app/src/main/java/jp/kappa0923/android/mlkit/MainActivity.kt:199-206 | once a max side is non-zero, no later call changes it |
| MainActivity.StartCapture | starter/app/src/main/java/jp/kappa0923/android/mlkit/MainActivity.kt:73-77 | the add-photo action empties the overlay with one redraw request; each max side takes the view's side only while it is 0; nothing else changes |
| MainActivity.OnActivityResult | starter/app/src/main/java/jp/kappa0923/android/mlkit/MainActivity.kt:83-101 | other request codes are ignored; a cancelled capture only adds "Camera Canceled"; a successful one shows the fitted photo (inside the box, touching it on one axis) and appends its centring offset after the earlier offsets, which are kept, with equal margins on each axis and never negative, changing nothing else |
| MainActivity.LineElementsMembership | final/app/src/main/java/jp/kappa0923/android/mlkit/MainActivity.kt:223-229 | an element is in the flattened list exactly when some line holds it |
| MainActivity.BlockElementsMembership | final/app/src/main/java/jp/kappa0923/android/mlkit/MainActivity.kt:221-231 | an element is in the flattened list exactly when some line of some block holds it |
| MainActivity.ReplaceGraphics | final/app/src/main/java/jp/kappa0923/android/mlkit/MainActivity.kt:265-270 | after clear and one construct-and-add per annotation, the overlay holds exactly one fresh graphic per annotation, with 1 + 2n redraw requests |
| MainActivity.ProcessTextRecognitionResult | final/app/src/main/java/jp/kappa0923/android/mlkit/MainActivity.kt:212-232 | no blocks: only "Text not found" is added. Otherwise the overlay holds exactly one text graphic per element over all blocks and lines, so blocks without elements leave it empty. The overlay gets 1 + 2n redraw requests for n elements (the clear, then one per graphic's creation and one per add), the next identity advances by n, and nothing else in the activity or overlay changes. Fresh graphic identities stay fresh |
| MainActivity.ShownIffListed | final/app/src/main/java/jp/kappa0923/android/mlkit/MainActivity.kt:226-228 | a held graphic shows an annotation exactly when that annotation was listed |
| MainActivity.TextGraphicsAreTheElements | final/app/src/main/java/jp/kappa0923/android/mlkit/MainActivity.kt:219-231 | some held graphic shows element e exactly when some line of some block holds e |
| MainActivity.ProcessFaceDetection | final/app/src/main/java/jp/kappa0923/android/mlkit/MainActivity.kt:259-271 | no faces: only "Face not found" is added. Otherwise the overlay holds exactly one face graphic per face. The overlay gets 1 + 2n redraw requests for n faces, the next identity advances by n, and nothing else in the activity or overlay changes. Fresh graphic identities stay fresh |
| MainActivity.ProcessImageLabeling | final/app/src/main/java/jp/kappa0923/android/mlkit/MainActivity.kt:311-332 | no rows: only "Not found" is added. A first row shorter than the label list ends in an index-out-of-bounds failure with the overlay cleared and nothing else changed. Otherwise the overlay holds exactly the one label graphic of the top label, with two redraw requests, the next identity advances by 1, and nothing else in the activity or overlay changes. Fresh graphic identities stay fresh |
| MainActivity.LabelGraphicShowsTopLabel | final/app/src/main/java/jp/kappa0923/android/mlkit/MainActivity.kt:317-331 | the single label graphic shows the pick's label and score, or "" and 0 when no score is above 0 |

## Findings

| source | as written | input that shows it | evidently intended | confidence | as-written member | corrected member |
|---|---|---|---|---|---|---|
| final/app/src/main/java/jp/kappa0923/android/mlkit/MainActivity.kt:323 | `labels[0][i] and 0xff.toByte()` masks a Kotlin Byte with the byte -1, which changes nothing. The byte is then read signed, so raw outputs 128-255 become negative scores that never beat 0 | label list ["cat"], output row [200]: the result is "" with score 0 instead of "cat" with 200/255 | read each output byte unsigned (0-255), the usual `b & 0xff` idiom | high (not executed) | Labeling.ConfidentLabelDroppedAsWritten | Labeling.UnsignedPicksLargestByte |

`ProcessImageLabeling` and `TopLabel` take the reading as a parameter (`ByteReading`). `SignedAsWritten` reproduces the app's behaviour. `Unsigned` is the corrected reading. `LabelGraphicShowsTopLabel` holds for both readings.

## Left out

- Camera capture, file creation, the file provider, intents and permission handling (`showCamera`, `createImageFile`). These are I/O and OS glue. The decoded photo size arrives as a parameter of `OnActivityResult`.
- The Firebase services: `setupCustomModel`, `runTextRecognition`, `runFaceDetection`, `runImageLabeling`, model download and asynchronous delivery. These are foreign library calls. Their results arrive as the `Vision` datatypes and as byte rows. Failure listeners only print stack traces or show a notice.
- `loadLabelList` reads an asset file. The label list is a `seq<string>` parameter.
- Bitmap library work: decoding, rotation and scaling of the pixels, and `getPixels`. Only the dimension arithmetic and the pixel array are modelled.
- GraphicOverlay.OnDraw: the HashSet's iteration order is chosen by the runtime, so it is a parameter. The parameter must enumerate the set without repeats.
- GraphicOverlay.OnDraw: a draw call is recorded as a graphic plus the factors in force. The canvas calls each graphic makes are given separately by `TextGraphic.Draw` and `FaceGraphic.Draw`.
- BitmapFit.GetScaledBitmap: does not model the rounding of the scaled sides to whole pixels or float rounding. Sides and offsets are exact reals, so "touches the box" holds exactly here and only up to rounding in the app.
- MainActivity.OnActivityResult: requires a known (positive) maximum size and a decoded photo. With a zero maximum size the app divides by zero in floating point, and a failed decode throws. Neither case is modelled.
- Labeling.TopLabel: compares scores as integers over 255 instead of as floats. Dividing by 255 preserves their order, and float rounding of the score is not modelled.
- Float-to-string formatting of the smile percentage and of the "label : score" string. Captions keep the number.
- The `synchronized(lock)` blocks. Every operation is atomic and sequential. Concurrent completion of recognition tasks, and stale results from an earlier capture, are not modelled.
- Android UI effects: `postInvalidate` is a counter, `Toast` is a list of notices, and `setImageBitmap` is the `photo` field. Paint and canvas rendering are command lists.
- `GraphicOverlay.translate` and `LabelGraphic` are not modelled. Only the offset passed to `translate` and the label and score given to `LabelGraphic` are recorded. The redraw requested by `LabelGraphic`'s constructor, if any, is not counted.
- `Log.d` and `printStackTrace`. These are logging only.
- The recognition calls commented out in `onActivityResult`. The handlers are modelled on their own.
