/** `pixelate` (Filters.swift): the rendered sheet is copied into an 8-bit RGBA
    buffer and every pixel is overwritten, row by row, with opaque black or
    transparent white depending on whether its alpha is below the threshold.
    Creating the buffer and producing the final image can fail; the original
    image is then returned as it was. */
module Filters {
  /** An 8-bit sample. */
  type Byte = x: int | 0 <= x < 256

  datatype Pixel = Pixel(r: Byte, g: Byte, b: Byte, a: Byte)

  /** `blackPixel`, written where the glyph is. */
  const BlackPixel: Pixel := Pixel(0, 0, 0, 255)
  /** `clearPixel`, written everywhere else. */
  const ClearPixel: Pixel := Pixel(255, 255, 255, 0)

  /** The alpha component the colour query reports: the 8-bit alpha scaled to
      between 0 and 1. */
  function Alpha(p: Pixel): (alpha: real)
    ensures 0.0 <= alpha <= 1.0
    ensures alpha * 255.0 == p.a as real
  {
    p.a as real / 255.0
  }

  /** The value one readable pixel is overwritten with. */
  function Binarize(p: Pixel, threshold: real): (q: Pixel)
    ensures q == BlackPixel || q == ClearPixel
    ensures q == ClearPixel <==> Alpha(p) < threshold
  {
    if Alpha(p) < threshold then ClearPixel else BlackPixel
  }

  /** The value a pixel has after the scan: binarised when its colour could be
      read, left as it was otherwise. */
  function Filtered(p: Pixel, readable: bool, threshold: real): (q: Pixel)
    ensures !readable ==> q == p
    ensures readable ==> q == BlackPixel || q == ClearPixel
    ensures readable ==> (q == ClearPixel <==> Alpha(p) < threshold)
  {
    if readable then Binarize(p, threshold) else p
  }

  /** Pixel (x0, y0) comes before (x, y) in a row-major scan. */
  predicate Before(y0: int, x0: int, y: int, x: int) {
    y0 < y || (y0 == y && x0 < x)
  }

  /** The nested scan: rows top to bottom, each row left to right, each readable
      pixel overwritten in place. */
  method ThresholdPixels(representation: array2<Pixel>, threshold: real, colorReadable: (int, int) -> bool)
    modifies representation
    ensures forall y, x :: 0 <= y < representation.Length0 && 0 <= x < representation.Length1 ==>
      representation[y, x] == Filtered(old(representation[y, x]), colorReadable(x, y), threshold)
  {
    var height := representation.Length0;
    var width := representation.Length1;
    for y := 0 to height
      invariant forall y0, x0 :: 0 <= y0 < height && 0 <= x0 < width ==>
        representation[y0, x0] ==
          if Before(y0, x0, y, 0) then Filtered(old(representation[y0, x0]), colorReadable(x0, y0), threshold)
          else old(representation[y0, x0])
    {
      for x := 0 to width
        invariant forall y0, x0 :: 0 <= y0 < height && 0 <= x0 < width ==>
          representation[y0, x0] ==
            if Before(y0, x0, y, x) then Filtered(old(representation[y0, x0]), colorReadable(x0, y0), threshold)
            else old(representation[y0, x0])
      {
        if colorReadable(x, y) {
          var alpha := Alpha(representation[y, x]);
          if alpha < threshold {
            representation[y, x] := ClearPixel;
          } else {
            representation[y, x] := BlackPixel;
          }
        }
      }
    }
  }

  /** The colour of every pixel of `image` can be read. */
  predicate AllReadable(image: array2<Pixel>, colorReadable: (int, int) -> bool) {
    forall y, x :: 0 <= y < image.Length0 && 0 <= x < image.Length1 ==> colorReadable(x, y)
  }

  /** `pixelate`. `bufferCreated` says whether the bitmap buffer and its graphics
      context could be made, `cgImageAvailable` whether the buffer could be turned
      back into an image, and `colorReadable(x, y)` whether the colour of a pixel
      could be read. The result always has the input's dimensions; on a failure it
      is the input itself, otherwise a new image holding the filtered pixels. */
  method Pixelate(image: array2<Pixel>, threshold: real, bufferCreated: bool,
                  colorReadable: (int, int) -> bool, cgImageAvailable: bool)
    returns (result: array2<Pixel>)
    ensures result.Length0 == image.Length0 && result.Length1 == image.Length1
    ensures !(bufferCreated && cgImageAvailable) ==> result == image
    ensures bufferCreated && cgImageAvailable ==>
      && result != image
      && forall y, x :: 0 <= y < image.Length0 && 0 <= x < image.Length1 ==>
           result[y, x] == Filtered(image[y, x], colorReadable(x, y), threshold)
    ensures bufferCreated && cgImageAvailable && AllReadable(image, colorReadable) ==>
      forall y, x :: 0 <= y < image.Length0 && 0 <= x < image.Length1 ==>
        result[y, x] == BlackPixel || result[y, x] == ClearPixel
  {
    if !bufferCreated {
      return image;
    }
    var representation := new Pixel[image.Length0, image.Length1](
      (y, x) requires 0 <= y < image.Length0 && 0 <= x < image.Length1 reads image => image[y, x]);
    ThresholdPixels(representation, threshold, colorReadable);
    if !cgImageAvailable {
      return image;
    }
    result := representation;
  }

  /** A threshold at or below 0 turns every pixel black, one above 1 turns every
      pixel clear; a threshold of exactly 1 keeps only fully opaque pixels black.
      No clamping is applied. */
  lemma ExtremeThresholds(p: Pixel, threshold: real)
    ensures threshold <= 0.0 ==> Binarize(p, threshold) == BlackPixel
    ensures threshold > 1.0 ==> Binarize(p, threshold) == ClearPixel
    ensures Binarize(p, 1.0) == BlackPixel <==> p.a == 255
  {
  }

  /** The new value of a pixel depends on its alpha alone. */
  lemma AlphaAlone(p: Pixel, q: Pixel, threshold: real)
    requires p.a == q.a
    ensures Binarize(p, threshold) == Binarize(q, threshold)
  {
  }

  /** Raising the threshold only turns black pixels clear, never the reverse. */
  lemma ThresholdMonotone(p: Pixel, low: real, high: real)
    requires low <= high
    ensures Binarize(p, low) == ClearPixel ==> Binarize(p, high) == ClearPixel
  {
  }
}
