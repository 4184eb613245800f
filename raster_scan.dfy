/** The row-major pixel scan the scripts run with
    `for y in range(height): for x in range(width)`: the positions a scan
    has visited before it reaches row `y`, column `x`. */
module RasterScan {

  /** Pixel (j, i) of a raster `width` wide comes before (y, x) in the scan. */
  predicate Before(width: nat, j: int, i: int, y: nat, x: nat) {
    0 <= i < width && 0 <= j && (j < y || (j == y && i < x))
  }

  /** The positions visited before (y, x), as (row, column) pairs in visiting
      order: `y` full rows, then `x` pixels of row `y`. */
  function Positions(width: nat, y: nat, x: nat): (ps: seq<(nat, nat)>)
    requires x <= width
    ensures |ps| == y * width + x
    ensures forall k :: 0 <= k < |ps| ==> Before(width, ps[k].0, ps[k].1, y, x)
    decreases y, x
  {
    if x > 0 then Positions(width, y, x - 1) + [(y, x - 1)]
    else if y == 0 then []
    else
      assert (y - 1) * width + width == y * width;
      Positions(width, y - 1, width)
  }

  /** Every position before (y, x) is visited, exactly once. */
  lemma {:induction false} PositionsComplete(width: nat, y: nat, x: nat, j: int, i: int)
    requires x <= width
    requires Before(width, j, i, y, x)
    ensures (j, i) in Positions(width, y, x)
    decreases y, x
  {
    if x > 0 {
      if !(j == y && i == x - 1) {
        PositionsComplete(width, y, x - 1, j, i);
      }
    } else if y > 0 {
      PositionsComplete(width, y - 1, width, j, i);
    }
  }

  lemma {:induction false} PositionsDistinct(width: nat, y: nat, x: nat)
    requires x <= width
    ensures forall k, l :: 0 <= k < l < |Positions(width, y, x)| ==>
      Positions(width, y, x)[k] != Positions(width, y, x)[l]
    decreases y, x
  {
    if x > 0 {
      PositionsDistinct(width, y, x - 1);
    } else if y > 0 {
      PositionsDistinct(width, y - 1, width);
    }
  }

  /** A full scan of a `height` x `width` raster visits each of its
      `height * width` pixels exactly once. */
  lemma FullScan(height: nat, width: nat)
    ensures |Positions(width, height, 0)| == height * width
    ensures forall j, i :: (j, i) in Positions(width, height, 0) <==> 0 <= j < height && 0 <= i < width
    ensures forall k, l :: 0 <= k < l < |Positions(width, height, 0)| ==>
      Positions(width, height, 0)[k] != Positions(width, height, 0)[l]
  {
    PositionsDistinct(width, height, 0);
    forall j, i | 0 <= j < height && 0 <= i < width
      ensures (j, i) in Positions(width, height, 0)
    {
      PositionsComplete(width, height, 0, j, i);
    }
  }
}
