/** map_generator/step_5_sea.py: every black pixel of the overlay image is
    replaced by one of eight sea colours, chosen by where the red channel of
    the sea image falls in a cumulative weight table. */
module SeaColours {
  import opened Pixels

  const SeaDepthColors: seq<Rgb> := [
    Rgb(19, 183, 210),
    Rgb(0, 153, 150),
    Rgb(0, 161, 55),
    Rgb(162, 197, 16),
    Rgb(226, 202, 144),
    Rgb(248, 172, 0),
    Rgb(238, 117, 0),
    Rgb(237, 106, 112)
  ]

  const SeaDepthColorWeights: seq<nat> := [1606, 1878, 529, 1019, 724, 598, 229, 203]

  /** `sum(sea_depth_color_weights)`. */
  const WeightRange: nat := 6786

  /** Sum of the first `k` weights. */
  function Prefix(k: nat): nat
    requires k <= |SeaDepthColorWeights|
  {
    if k == 0 then 0 else Prefix(k - 1) + SeaDepthColorWeights[k - 1]
  }

  lemma PrefixValues()
    ensures Prefix(1) == 1606 && Prefix(2) == 3484 && Prefix(3) == 4013 && Prefix(4) == 5032
    ensures Prefix(5) == 5756 && Prefix(6) == 6354 && Prefix(7) == 6583 && Prefix(8) == WeightRange
  {
    assert Prefix(1) == 1606;
    assert Prefix(2) == 3484;
    assert Prefix(3) == 4013;
    assert Prefix(4) == 5032;
    assert Prefix(5) == 5756;
    assert Prefix(6) == 6354;
    assert Prefix(7) == 6583;
  }

  /** Number of cumulative weights among the first `n` that lie strictly
      below the scaled red value: #{k in 1..n : 255 * Prefix(k) < WeightRange * r}. */
  function PrefixesBelow(r: Byte, n: nat): nat
    requires n <= |SeaDepthColorWeights|
  {
    if n == 0 then 0
    else PrefixesBelow(r, n - 1) + (if 255 * Prefix(n) < WeightRange * r then 1 else 0)
  }

  /** The `color_index` the selection loop ends with for red value `r`. */
  function ColorIndex(r: Byte): nat {
    PrefixesBelow(r, 8)
  }

  /** The cumulative weights only grow, so once one is reached the count stops. */
  lemma {:induction false} PrefixesBelowStops(r: Byte, i: nat, n: nat)
    requires i < n <= 8
    requires PrefixesBelow(r, i) == i
    requires 255 * Prefix(i + 1) >= WeightRange * r
    ensures PrefixesBelow(r, n) == i
    decreases n
  {
    if n > i + 1 {
      PrefixesBelowStops(r, i, n - 1);
      PrefixMonotone(i + 1, n);
    }
  }

  lemma {:induction false} PrefixMonotone(i: nat, j: nat)
    requires i <= j <= 8
    ensures Prefix(i) <= Prefix(j)
    decreases j
  {
    if i < j {
      PrefixMonotone(i, j - 1);
    }
  }

  /** The `while` loop of `render`: subtract weights from the scaled red value
      while it exceeds the next one. */
  method SelectColorIndex(r: Byte) returns (colorIndex: nat)
    ensures colorIndex == ColorIndex(r)
    ensures colorIndex < |SeaDepthColorWeights|
  {
    var colorWeight: real := (r as real) / 255.0 * (WeightRange as real);
    colorIndex := 0;
    while |SeaDepthColorWeights| != colorIndex && colorWeight > SeaDepthColorWeights[colorIndex] as real
      invariant colorIndex <= 8
      invariant colorWeight == (r as real) / 255.0 * (WeightRange as real) - Prefix(colorIndex) as real
      invariant PrefixesBelow(r, colorIndex) == colorIndex
    {
      colorWeight := colorWeight - SeaDepthColorWeights[colorIndex] as real;
      colorIndex := colorIndex + 1;
    }
    ColorIndexBounded(r);
    PrefixesBelowStops(r, colorIndex, 8);
  }

  /** `sequence[i]` in Python, where a negative `i` counts from the end. */
  function PyIndex<T>(s: seq<T>, i: int): T
    requires -|s| <= i < |s|
  {
    if i < 0 then s[|s| + i] else s[i]
  }

  /** The colour `render` writes for a sea pixel with red value `r`. */
  function SeaColor(r: Byte): Rgb {
    ColorIndexBounded(r);
    PyIndex(SeaDepthColors, ColorIndex(r) as int - 1)
  }

  lemma ColorIndexBounded(r: Byte)
    ensures ColorIndex(r) < 8
  {
    PrefixValues();
    PrefixesBelowAtMost(r, 7);
  }

  lemma {:induction false} PrefixesBelowAtMost(r: Byte, n: nat)
    requires n <= 8
    ensures PrefixesBelow(r, n) <= n
  {
    if n > 0 {
      PrefixesBelowAtMost(r, n - 1);
    }
  }

  /** The new value of one overlay pixel, given the sea pixel at the same
      position. */
  function SeaPixel(overlay: Rgb, sea: Rgb): (p: Rgb)
    ensures overlay != Black ==> p == overlay
    ensures overlay == Black ==> p in SeaDepthColors
  {
    if overlay == Black then
      ColorIndexBounded(sea.r);
      var c := SeaColor(sea.r);
      assert c == SeaDepthColors[if ColorIndex(sea.r) == 0 then 7 else ColorIndex(sea.r) - 1];
      c
    else overlay
  }

  /** The eight colour bands by red value. */
  lemma ColorIndexBands(r: Byte)
    ensures ColorIndex(r) == (
      if r <= 60 then 0 else if r <= 130 then 1 else if r <= 150 then 2
      else if r <= 189 then 3 else if r <= 216 then 4 else if r <= 238 then 5
      else if r <= 247 then 6 else 7)
  {
    PrefixValues();
    assert PrefixesBelow(r, 1) == (if r <= 60 then 0 else 1);
    assert PrefixesBelow(r, 2) == PrefixesBelow(r, 1) + (if r <= 130 then 0 else 1);
    assert PrefixesBelow(r, 3) == PrefixesBelow(r, 2) + (if r <= 150 then 0 else 1);
    assert PrefixesBelow(r, 4) == PrefixesBelow(r, 3) + (if r <= 189 then 0 else 1);
    assert PrefixesBelow(r, 5) == PrefixesBelow(r, 4) + (if r <= 216 then 0 else 1);
    assert PrefixesBelow(r, 6) == PrefixesBelow(r, 5) + (if r <= 238 then 0 else 1);
    assert PrefixesBelow(r, 7) == PrefixesBelow(r, 6) + (if r <= 247 then 0 else 1);
    assert PrefixesBelow(r, 8) == PrefixesBelow(r, 7);
  }

  /** Index 0 happens exactly for r <= 60, and then Python's `[-1]` picks the
      last colour; otherwise the colour is the one before the index. */
  lemma SeaColorChoice(r: Byte)
    ensures ColorIndex(r) == 0 <==> r <= 60
    ensures r <= 60 ==> SeaColor(r) == Rgb(237, 106, 112)
    ensures ColorIndex(r) < 8
    ensures ColorIndex(r) >= 1 ==> SeaColor(r) == SeaDepthColors[ColorIndex(r) - 1]
  {
    ColorIndexBands(r);
  }

  /** A redder sea pixel never gets a lower index. */
  lemma {:induction false} PrefixesBelowMonotone(r1: Byte, r2: Byte, n: nat)
    requires r1 <= r2 && n <= 8
    ensures PrefixesBelow(r1, n) <= PrefixesBelow(r2, n)
    decreases n
  {
    if n > 0 {
      PrefixesBelowMonotone(r1, r2, n - 1);
    }
  }

  lemma ColorIndexMonotone(r1: Byte, r2: Byte)
    requires r1 <= r2
    ensures ColorIndex(r1) <= ColorIndex(r2)
  {
    PrefixesBelowMonotone(r1, r2, 8);
  }

  /** The value `render` leaves in an overlay pixel whose old value was
      `p`: the sea image at (y, x) is read only when `p` is black. */
  ghost function Recoloured(p: Rgb, sea: array2<Rgb>, y: nat, x: nat): Rgb
    requires p == Black ==> y < sea.Length0 && x < sea.Length1
    reads sea
  {
    if p == Black then SeaPixel(p, sea[y, x]) else p
  }

  /** The inner `for x` loop over row `y`, in place. */
  method RenderRow(overlay: array2<Rgb>, sea: array2<Rgb>, y: nat)
    requires sea != overlay && y < overlay.Length0
    requires forall x :: 0 <= x < overlay.Length1 && overlay[y, x] == Black ==>
      y < sea.Length0 && x < sea.Length1
    modifies overlay
    ensures forall i :: 0 <= i < overlay.Length1 ==> overlay[y, i] == Recoloured(old(overlay[y, i]), sea, y, i)
    ensures forall j, i :: 0 <= j < overlay.Length0 && j != y && 0 <= i < overlay.Length1 ==>
      overlay[j, i] == old(overlay[j, i])
  {
    for x := 0 to overlay.Length1
      invariant forall i :: 0 <= i < x ==> overlay[y, i] == Recoloured(old(overlay[y, i]), sea, y, i)
      invariant forall i :: x <= i < overlay.Length1 ==> overlay[y, i] == old(overlay[y, i])
      invariant forall j, i :: 0 <= j < overlay.Length0 && j != y && 0 <= i < overlay.Length1 ==>
        overlay[j, i] == old(overlay[j, i])
    {
      if overlay[y, x] == Black {
        var colorIndex := SelectColorIndex(sea[y, x].r);
        overlay[y, x] := PyIndex(SeaDepthColors, colorIndex as int - 1);
      }
    }
  }

  /** `render`'s pixel loop: rewrites the black pixels of `overlay` in place,
      reading only the red channel of `sea` at the same position, and only
      under black overlay pixels, so the sea image need only reach those. */
  method Render(overlay: array2<Rgb>, sea: array2<Rgb>)
    requires sea != overlay
    requires forall y, x :: 0 <= y < overlay.Length0 && 0 <= x < overlay.Length1 && overlay[y, x] == Black ==>
      y < sea.Length0 && x < sea.Length1
    modifies overlay
    ensures forall y, x :: 0 <= y < overlay.Length0 && 0 <= x < overlay.Length1 && old(overlay[y, x]) != Black ==>
      overlay[y, x] == old(overlay[y, x])
    ensures forall y, x :: 0 <= y < overlay.Length0 && 0 <= x < overlay.Length1 && old(overlay[y, x]) == Black ==>
      y < sea.Length0 && x < sea.Length1 && overlay[y, x] == SeaPixel(Black, sea[y, x])
  {
    for y := 0 to overlay.Length0
      invariant forall j, i :: 0 <= j < y && 0 <= i < overlay.Length1 ==>
        overlay[j, i] == Recoloured(old(overlay[j, i]), sea, j, i)
      invariant forall j, i :: y <= j < overlay.Length0 && 0 <= i < overlay.Length1 ==>
        overlay[j, i] == old(overlay[j, i])
    {
      RenderRow(overlay, sea, y);
    }
  }
}
