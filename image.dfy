/**
 * An image object and the in-place colour-replacement pass of `change_color`.
 *
 * The object owns its pixel map, a two-dimensional buffer whose first
 * dimension is the width and whose second is the height. Edits that the
 * imaging library performs (resize, rotate, filter) hand back a new object;
 * the colour replacement writes into the buffer of the object it is given
 * and hands that same object back.
 */
module Images {

  import opened Pixels

  class Image {
    /** The pixel map: `pixels[i, j]` is the pixel at x = i, y = j. */
    const pixels: array2<Pixel>

    /** A new image object whose pixel map holds the given raster. */
    constructor FromRaster(b: Bitmap)
      ensures fresh(pixels)
      ensures Snapshot() == b
    {
      pixels := new Pixel[b.width, b.height]((i, j) requires 0 <= i < b.width && 0 <= j < b.height => b.columns[i][j]);
      new;
      assert forall i :: 0 <= i < b.width ==> Snapshot().columns[i] == b.columns[i];
    }

    /** The value the pixel map currently holds. */
    function Snapshot(): (r: Bitmap)
      reads pixels
      ensures r.width == pixels.Length0 && r.height == pixels.Length1
      ensures forall i, j :: 0 <= i < pixels.Length0 && 0 <= j < pixels.Length1 ==> r.columns[i][j] == pixels[i, j]
    {
      Raster(pixels.Length0, pixels.Length1,
        seq(pixels.Length0, i requires 0 <= i < pixels.Length0 reads pixels =>
          seq(pixels.Length1, j requires 0 <= j < pixels.Length1 reads pixels => pixels[i, j])))
    }
  }

  /**
   * Visits every coordinate of the pixel map once and overwrites each pixel
   * equal to `source` with `target`; returns the object it was given.
   */
  method ChangeColor(im: Image, source: Rgb, target: Rgb) returns (changed: Image)
    requires target.InByteRange()
    modifies im.pixels
    ensures changed == im
    ensures forall i, j :: 0 <= i < im.pixels.Length0 && 0 <= j < im.pixels.Length1 ==>
      im.pixels[i, j] == (if old(im.pixels[i, j]) == source.Channels() then target.Channels() else old(im.pixels[i, j]))
    ensures im.Snapshot() == Recoloured(old(im.Snapshot()), source, target)
  {
    var pixels := im.pixels;
    ghost var before := im.Snapshot();
    for i := 0 to pixels.Length0
      invariant forall x, y :: 0 <= x < i && 0 <= y < pixels.Length1 ==>
        pixels[x, y] == RecolourPixel(old(pixels[x, y]), source, target)
      invariant forall x, y :: i <= x < pixels.Length0 && 0 <= y < pixels.Length1 ==>
        pixels[x, y] == old(pixels[x, y])
    {
      for j := 0 to pixels.Length1
        invariant forall x, y :: 0 <= x < i && 0 <= y < pixels.Length1 ==>
          pixels[x, y] == RecolourPixel(old(pixels[x, y]), source, target)
        invariant forall y :: 0 <= y < j ==> pixels[i, y] == RecolourPixel(old(pixels[i, y]), source, target)
        invariant forall x, y :: i <= x < pixels.Length0 && 0 <= y < pixels.Length1 && (x > i || y >= j) ==>
          pixels[x, y] == old(pixels[x, y])
      {
        if pixels[i, j] == source.Channels() {
          pixels[i, j] := target.Channels();
        }
      }
    }
    changed := im;
    ghost var after := im.Snapshot();
    ghost var expected := Recoloured(before, source, target);
    forall i | 0 <= i < pixels.Length0
      ensures after.columns[i] == expected.columns[i]
    {
    }
  }
}
