/** `convertBitmapToByteBuffer`: packs the classifier's 224x224 input image
    into a flat buffer of red, green, blue bytes, alpha dropped. The resize to
    224x224 and the pixel read-out are library work; the model starts from the
    `intValues` array they fill (ARGB, one 32-bit value per pixel, row-major). */
module Tensor {
  const DIM_BATCH_SIZE: nat := 1
  const DIM_PIXEL_SIZE: nat := 3
  const DIM_IMG_SIZE_X: nat := 224
  const DIM_IMG_SIZE_Y: nat := 224

  /** Length of `intValues`: one entry per pixel. */
  const PIXEL_COUNT: nat := DIM_IMG_SIZE_X * DIM_IMG_SIZE_Y

  /** Capacity of the direct byte buffer, 150528 bytes. */
  const BUFFER_SIZE: nat := DIM_BATCH_SIZE * DIM_IMG_SIZE_X * DIM_IMG_SIZE_Y * DIM_PIXEL_SIZE

  /** `(value shr 16 and 0xFF).toByte()` */
  function RedOf(v: bv32): bv8 { ((v >> 16) & 0xFF) as bv8 }

  /** `(value shr 8 and 0xFF).toByte()` */
  function GreenOf(v: bv32): bv8 { ((v >> 8) & 0xFF) as bv8 }

  /** `(value and 0xFF).toByte()` */
  function BlueOf(v: bv32): bv8 { (v & 0xFF) as bv8 }

  /** Reference layout: each pixel in turn contributes its red, green and blue
      bytes. */
  function Layout(pixels: seq<bv32>): (bytes: seq<bv8>)
    ensures |bytes| == 3 * |pixels|
    decreases |pixels|
  {
    if |pixels| == 0 then []
    else Layout(pixels[..|pixels| - 1]) + [RedOf(pixels[|pixels| - 1]), GreenOf(pixels[|pixels| - 1]), BlueOf(pixels[|pixels| - 1])]
  }

  /** Where pixel `k`'s bytes sit in the reference layout. */
  lemma {:induction false} LayoutAt(pixels: seq<bv32>, k: nat)
    requires k < |pixels|
    ensures Layout(pixels)[3 * k] == RedOf(pixels[k])
    ensures Layout(pixels)[3 * k + 1] == GreenOf(pixels[k])
    ensures Layout(pixels)[3 * k + 2] == BlueOf(pixels[k])
    decreases |pixels|
  {
    var n := |pixels| - 1;
    if k < n {
      LayoutAt(pixels[..n], k);
      assert pixels[..n][k] == pixels[k];
    }
  }

  /** The packing loop: two nested loops over 224 x 224 pixels, consuming
      `intValues` in order and appending three bytes per pixel. */
  method ConvertBitmapToByteBuffer(intValues: seq<bv32>) returns (imageData: seq<bv8>)
    requires |intValues| == PIXEL_COUNT
    ensures |imageData| == BUFFER_SIZE
    ensures forall k :: 0 <= k < PIXEL_COUNT ==>
      imageData[3 * k] == RedOf(intValues[k])
      && imageData[3 * k + 1] == GreenOf(intValues[k])
      && imageData[3 * k + 2] == BlueOf(intValues[k])
    ensures imageData == Layout(intValues)
  {
    var buffer := new bv8[BUFFER_SIZE];
    var position := 0;
    var pixel := 0;
    for i := 0 to DIM_IMG_SIZE_X
      invariant pixel == i * DIM_IMG_SIZE_Y
      invariant position == 3 * pixel
      invariant forall k :: 0 <= k < pixel ==>
        buffer[3 * k] == RedOf(intValues[k])
        && buffer[3 * k + 1] == GreenOf(intValues[k])
        && buffer[3 * k + 2] == BlueOf(intValues[k])
    {
      for j := 0 to DIM_IMG_SIZE_Y
        invariant pixel == i * DIM_IMG_SIZE_Y + j
        invariant position == 3 * pixel
        invariant forall k :: 0 <= k < pixel ==>
          buffer[3 * k] == RedOf(intValues[k])
          && buffer[3 * k + 1] == GreenOf(intValues[k])
          && buffer[3 * k + 2] == BlueOf(intValues[k])
      {
        var value := intValues[pixel];
        pixel := pixel + 1;
        buffer[position] := RedOf(value);
        buffer[position + 1] := GreenOf(value);
        buffer[position + 2] := BlueOf(value);
        position := position + 3;
      }
    }
    imageData := buffer[..];
    PackingMatchesLayout(intValues, imageData);
  }

  /** The packed buffer is exactly the reference layout of the pixels. */
  lemma PackingMatchesLayout(intValues: seq<bv32>, imageData: seq<bv8>)
    requires |intValues| == PIXEL_COUNT && |imageData| == BUFFER_SIZE
    requires forall k :: 0 <= k < PIXEL_COUNT ==>
      imageData[3 * k] == RedOf(intValues[k])
      && imageData[3 * k + 1] == GreenOf(intValues[k])
      && imageData[3 * k + 2] == BlueOf(intValues[k])
    ensures imageData == Layout(intValues)
  {
    forall n | 0 <= n < BUFFER_SIZE ensures imageData[n] == Layout(intValues)[n] {
      var k := n / 3;
      LayoutAt(intValues, k);
    }
  }

  /** Rebuilds a pixel, with a zero alpha byte, from its three channel bytes. */
  function RgbOf(r: bv8, g: bv8, b: bv8): bv32 {
    (r as bv32 << 16) | (g as bv32 << 8) | b as bv32
  }

  /** The three bytes keep the pixel's colour: only the alpha byte is lost. */
  lemma ChannelsKeepColour(v: bv32)
    ensures RgbOf(RedOf(v), GreenOf(v), BlueOf(v)) == v & 0x00FF_FFFF
  {
  }

  /** Reads a packed buffer back into pixels without alpha. */
  function Unpack(bytes: seq<bv8>): (pixels: seq<bv32>)
    requires |bytes| % 3 == 0
    ensures |pixels| == |bytes| / 3
  {
    seq(|bytes| / 3, k requires 0 <= k < |bytes| / 3 => RgbOf(bytes[3 * k], bytes[3 * k + 1], bytes[3 * k + 2]))
  }

  /** Unpacking a triple that came from pixel `v` gives `v` without alpha. */
  lemma UnpackAt(bytes: seq<bv8>, k: nat, v: bv32)
    requires |bytes| % 3 == 0 && k < |bytes| / 3
    requires bytes[3 * k] == RedOf(v) && bytes[3 * k + 1] == GreenOf(v) && bytes[3 * k + 2] == BlueOf(v)
    ensures Unpack(bytes)[k] == v & 0x00FF_FFFF
  {
    ChannelsKeepColour(v);
  }

  /** Round trip: unpacking the layout gives back every pixel with its alpha
      byte cleared, in the original order. */
  lemma UnpackLayout(pixels: seq<bv32>)
    ensures |Layout(pixels)| % 3 == 0 && |Unpack(Layout(pixels))| == |pixels|
    ensures forall k :: 0 <= k < |pixels| ==> Unpack(Layout(pixels))[k] == pixels[k] & 0x00FF_FFFF
  {
    var bytes := Layout(pixels);
    assert |bytes| == 3 * |pixels|;
    assert |bytes| % 3 == 0 && |bytes| / 3 == |pixels|;
    forall k | 0 <= k < |pixels| ensures Unpack(bytes)[k] == pixels[k] & 0x00FF_FFFF {
      LayoutAt(pixels, k);
      UnpackAt(bytes, k, pixels[k]);
    }
  }

  /** A solid pure-red image packs into (255, 0, 0) triples throughout. */
  lemma SolidRedPacksToRedTriples(pixels: seq<bv32>, k: nat)
    requires forall i :: 0 <= i < |pixels| ==> pixels[i] == 0xFFFF_0000
    requires k < |pixels|
    ensures Layout(pixels)[3 * k] == 255 && Layout(pixels)[3 * k + 1] == 0 && Layout(pixels)[3 * k + 2] == 0
  {
    LayoutAt(pixels, k);
  }
}
