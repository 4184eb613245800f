/** lego_art_map_generator/render_land_shadow.py: a shadow pixel is painted
    right of every run of land (red channel 255), scanning each row from left
    to right with a single flag. */
module LandShadow {
  import opened Pixels

  const ShadowColor: Rgb := Rgb(0, 53, 91)

  predicate IsLand(p: Rgb) {
    p.r == 255
  }

  /** The scan paints (y, x) exactly when the pixel to its left is land and
      this one is not. */
  predicate Painted(image: array2<Rgb>, y: nat, x: nat)
    requires y < image.Length0 && x < image.Length1
    reads image
  {
    x > 0 && IsLand(image[y, x - 1]) && !IsLand(image[y, x])
  }

  /** The value (y, x) has after `render`, in terms of the input image. */
  function Shadowed(image: array2<Rgb>, y: nat, x: nat): (p: Rgb)
    requires y < image.Length0 && x < image.Length1
    reads image
    ensures IsLand(image[y, x]) ==> p == image[y, x]
    ensures x == 0 ==> p == image[y, x]
    ensures p == image[y, x] || p == ShadowColor
    ensures IsLand(p) <==> IsLand(image[y, x])
    ensures Painted(image, y, x) ==> p == ShadowColor
    ensures p != image[y, x] ==> Painted(image, y, x)
  {
    if Painted(image, y, x) then ShadowColor else image[y, x]
  }

  /** No two horizontally adjacent pixels are painted, so a land run gets one
      shadow pixel to its right at most. */
  lemma NoAdjacentShadows(image: array2<Rgb>, y: nat, x: nat)
    requires y < image.Length0 && x + 1 < image.Length1
    ensures !(Painted(image, y, x) && Painted(image, y, x + 1))
  {
  }

  /** The inner loop of `render` over row `y`, in place. The flag
      `landAhoy` always says whether the pixel just left of the current one
      was land in the input. */
  method RenderRow(image: array2<Rgb>, y: nat)
    requires y < image.Length0
    modifies image
    ensures forall i :: 0 <= i < image.Length1 ==> image[y, i] == old(Shadowed(image, y, i))
    ensures forall j, i :: 0 <= j < image.Length0 && j != y && 0 <= i < image.Length1 ==>
      image[j, i] == old(image[j, i])
  {
    var landAhoy := false;
    for x := 0 to image.Length1
      invariant forall i :: 0 <= i < x ==> image[y, i] == old(Shadowed(image, y, i))
      invariant forall i :: x <= i < image.Length1 ==> image[y, i] == old(image[y, i])
      invariant forall j, i :: 0 <= j < image.Length0 && j != y && 0 <= i < image.Length1 ==>
        image[j, i] == old(image[j, i])
      invariant landAhoy <==> x > 0 && old(IsLand(image[y, x - 1]))
    {
      if image[y, x].r == 255 {
        landAhoy := true;
      } else if landAhoy {
        image[y, x] := ShadowColor;
        landAhoy := false;
      }
    }
  }

  /** `render`'s loops, in place: every pixel becomes its shadowed value. */
  method Render(image: array2<Rgb>)
    modifies image
    ensures forall y, x :: 0 <= y < image.Length0 && 0 <= x < image.Length1 ==>
      image[y, x] == old(Shadowed(image, y, x))
  {
    for y := 0 to image.Length0
      invariant forall j, i :: 0 <= j < y && 0 <= i < image.Length1 ==>
        image[j, i] == old(Shadowed(image, j, i))
      invariant forall j, i :: y <= j < image.Length0 && 0 <= i < image.Length1 ==>
        image[j, i] == old(image[j, i])
    {
      RenderRow(image, y);
    }
  }
}
