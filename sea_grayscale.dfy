/** The pixel loop of `render` in map_generator/step_4_sea_grayscale_utm_map.py:
    pixels the land-and-shadow mask already covers become 255, every other
    pixel becomes a grey level for the sea depth looked up at its centre. */
module SeaGrayscale {
  import opened Pixels
  import opened Wrappers

  /** The depth, in metres below sea level, that maps to grey 0. */
  const DeepestDepth: nat := 10511

  /** Python's `math.ceil` on a real. */
  function Ceil(q: real): int {
    -((-q).Floor)
  }

  function Min(a: int, b: int): int {
    if a <= b then a else b
  }

  /** `int(255 - math.ceil((min(0, value) / -10511.0) * 255))`, over exact
      reals. Heights above sea level count as depth 0. */
  function DepthToGrey(value: int): int {
    255 - Ceil((Min(0, value) as real) / -(DeepestDepth as real) * 255.0)
  }

  /** The same value in integers: 255 minus the ceiling of 255 d / 10511,
      for the depth d = -min(0, value). */
  lemma DepthToGreyInIntegers(value: int)
    requires value >= -(DeepestDepth as int)
    ensures DepthToGrey(value) == 255 - (255 * (-Min(0, value)) + DeepestDepth - 1) / DeepestDepth
  {
    var d := -Min(0, value);
    var q := (Min(0, value) as real) / -(DeepestDepth as real) * 255.0;
    assert q == (255 * d) as real / (DeepestDepth as real);
    var k := (255 * d + DeepestDepth - 1) / DeepestDepth;
    assert DeepestDepth * k <= 255 * d + DeepestDepth - 1 < DeepestDepth * (k + 1);
    assert (k - 1) as real < q <= k as real;
    assert (-q).Floor == -k;
  }

  /** Land maps to white, the deepest point to black, everything in between
      into the byte range. */
  lemma DepthToGreyRange(value: int)
    requires value >= -(DeepestDepth as int)
    ensures 0 <= DepthToGrey(value) <= 255
    ensures value >= 0 ==> DepthToGrey(value) == 255
    ensures value == -(DeepestDepth as int) ==> DepthToGrey(value) == 0
  {
    DepthToGreyInIntegers(value);
  }

  /** Deeper water is never lighter. */
  lemma DepthToGreyMonotone(v1: int, v2: int)
    requires -(DeepestDepth as int) <= v1 <= v2
    ensures DepthToGrey(v1) <= DepthToGrey(v2)
  {
    DepthToGreyInIntegers(v1);
    DepthToGreyInIntegers(v2);
    var a := 255 * (-Min(0, v2)) + DeepestDepth - 1;
    var b := 255 * (-Min(0, v1)) + DeepestDepth - 1;
    assert a / DeepestDepth <= b / DeepestDepth;
  }

  /** The byte stored for one output pixel. */
  function MaskedGrey(mask: Rgb, depth: int): (g: Byte)
    requires mask == Black ==> depth >= -(DeepestDepth as int)
    ensures mask != Black ==> g == 255
    ensures mask == Black && depth >= 0 ==> g == 255
  {
    if mask != Black then 255
    else
      DepthToGreyRange(depth);
      DepthToGrey(depth)
  }

  /** `mask.getpixel` outside the mask image: PIL's IndexError. */
  datatype RenderError = MaskTooSmall

  /** The mask is read at every canvas pixel, so a canvas with a pixel
      outside the mask makes `render` raise. */
  predicate MaskCovers(mask: array2<Rgb>, width: nat, height: nat) {
    height == 0 || width == 0 || (mask.Length0 >= height && mask.Length1 >= width)
  }

  /** `render`'s loops over an output of `height` rows and `width` columns.
      `depth[y, x]` stands for the GeoTIFF value at that pixel's centre, which
      is only consulted for pixels whose mask is black. When the mask is
      smaller than the canvas the loop raises at the first pixel outside it,
      and the partly filled array is discarded. */
  method Render(mask: array2<Rgb>, depth: array2<int>, width: nat, height: nat)
    returns (r: Result<array2<Byte>, RenderError>)
    requires depth.Length0 >= height && depth.Length1 >= width
    requires forall y, x ::
      (0 <= y < height && 0 <= x < width && y < mask.Length0 && x < mask.Length1 && mask[y, x] == Black) ==>
        depth[y, x] >= -(DeepestDepth as int)
    ensures r.Failure? <==> !MaskCovers(mask, width, height)
    ensures r.Success? ==>
      && fresh(r.value)
      && r.value.Length0 == height && r.value.Length1 == width
      && forall y, x :: 0 <= y < height && 0 <= x < width ==>
           r.value[y, x] == MaskedGrey(mask[y, x], depth[y, x])
  {
    if !MaskCovers(mask, width, height) {
      return Failure(MaskTooSmall);
    }
    var output := new Byte[height, width]((_, _) => 0);
    for y := 0 to height
      invariant forall j, i :: 0 <= j < y && 0 <= i < width ==>
        output[j, i] == MaskedGrey(mask[j, i], depth[j, i])
    {
      for x := 0 to width
        invariant forall j, i :: 0 <= j < y && 0 <= i < width ==>
          output[j, i] == MaskedGrey(mask[j, i], depth[j, i])
        invariant forall i :: 0 <= i < x ==> output[y, i] == MaskedGrey(mask[y, i], depth[y, i])
      {
        if mask[y, x] != Black {
          output[y, x] := 255;
          continue;
        }
        var value := depth[y, x];
        DepthToGreyRange(value);
        output[y, x] := DepthToGrey(value);
      }
    }
    return Success(output);
  }
}
