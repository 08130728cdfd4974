/**
 * Pixel values and whole-image rasters, and the colour-replacement pass of
 * `change_color` stated on values.
 *
 * A pixel is the sequence of its channel values: three for an RGB image,
 * four for RGBA, one for a grey-scale image. The program compares a pixel
 * with a 3-tuple, so a pixel of any other channel count never matches.
 * A raster is stored column by column: `columns[i][j]` is the pixel at
 * x = i (0 <= i < width) and y = j (0 <= j < height), the order of the
 * image's pixel map, whose first coordinate ranges over the width.
 */
module Pixels {

  type Pixel = seq<int>

  /** An RGB triple as the user types it in: any integers. */
  datatype Rgb = Rgb(red: int, green: int, blue: int) {

    /** The pixel value this triple is compared with and written as. */
    function Channels(): Pixel {
      [red, green, blue]
    }

    /** Every channel fits in one byte, as an 8-bit RGB image stores it. */
    predicate InByteRange() {
      0 <= red <= 255 && 0 <= green <= 255 && 0 <= blue <= 255
    }
  }

  datatype Raster = Raster(width: nat, height: nat, columns: seq<seq<Pixel>>) {

    /** There is one column per x and one pixel per y in every column. */
    predicate Valid() {
      |columns| == width && forall i :: 0 <= i < |columns| ==> |columns[i]| == height
    }

    function At(i: nat, j: nat): Pixel
      requires Valid() && i < width && j < height
    {
      columns[i][j]
    }
  }

  /** A well-formed raster: the value of an image's whole pixel map. */
  type Bitmap = r: Raster | r.Valid() witness Raster(0, 0, [])

  /** The value one pixel has after the pass: the target if it matched the source. */
  function RecolourPixel(p: Pixel, source: Rgb, target: Rgb): (r: Pixel)
    ensures r != p ==> p == source.Channels() && r == target.Channels()
    ensures |p| != 3 ==> r == p
  {
    if p == source.Channels() then target.Channels() else p
  }

  /** The raster after every pixel equal to `source` has been replaced by `target`. */
  function Recoloured(b: Bitmap, source: Rgb, target: Rgb): (r: Bitmap)
    ensures r.width == b.width && r.height == b.height
  {
    Raster(b.width, b.height,
      seq(b.width, i requires 0 <= i < b.width =>
        seq(b.height, j requires 0 <= j < b.height => RecolourPixel(b.columns[i][j], source, target))))
  }

  /** Every pixel that equalled the source now equals the target, and every other one is as it was. */
  lemma RecolouredAt(b: Bitmap, source: Rgb, target: Rgb, i: nat, j: nat)
    requires target.InByteRange()
    requires i < b.width && j < b.height
    ensures b.At(i, j) == source.Channels() ==> Recoloured(b, source, target).At(i, j) == target.Channels()
    ensures b.At(i, j) != source.Channels() ==> Recoloured(b, source, target).At(i, j) == b.At(i, j)
  {
  }

  /** A pixel holds the target afterwards exactly when it held the source or already held the target. */
  lemma RecolouredToTargetIff(b: Bitmap, source: Rgb, target: Rgb, i: nat, j: nat)
    requires target.InByteRange()
    requires i < b.width && j < b.height
    ensures Recoloured(b, source, target).At(i, j) == target.Channels()
        <==> b.At(i, j) == source.Channels() || b.At(i, j) == target.Channels()
  {
  }

  /** A pixel with other than three channels is never changed, and no pixel changes its channel count. */
  lemma RecolouredKeepsChannelCount(b: Bitmap, source: Rgb, target: Rgb, i: nat, j: nat)
    requires i < b.width && j < b.height
    ensures |b.At(i, j)| != 3 ==> Recoloured(b, source, target).At(i, j) == b.At(i, j)
    ensures |Recoloured(b, source, target).At(i, j)| == |b.At(i, j)|
  {
  }

  /** When the source and target triples are equal the pass changes nothing. */
  lemma RecolourSameIsIdentity(b: Bitmap, c: Rgb)
    ensures Recoloured(b, c, c) == b
  {
    var r := Recoloured(b, c, c);
    forall i | 0 <= i < b.width
      ensures r.columns[i] == b.columns[i]
    {
    }
  }

  /** When the source and target differ, no pixel equals the source afterwards. */
  lemma RecolourClearsSource(b: Bitmap, source: Rgb, target: Rgb, i: nat, j: nat)
    requires target.InByteRange()
    requires source.Channels() != target.Channels()
    requires i < b.width && j < b.height
    ensures Recoloured(b, source, target).At(i, j) != source.Channels()
  {
  }

  /** Running the same pass twice gives the raster that one pass gives. */
  lemma RecolourIdempotent(b: Bitmap, source: Rgb, target: Rgb)
    ensures Recoloured(Recoloured(b, source, target), source, target) == Recoloured(b, source, target)
  {
    var once := Recoloured(b, source, target);
    var twice := Recoloured(once, source, target);
    forall i | 0 <= i < b.width
      ensures twice.columns[i] == once.columns[i]
    {
    }
  }
}
