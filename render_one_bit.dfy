/** lego_art_map_generator/render_one_bit.py: a 1-bit neighbourhood filter
    over the red channel of the land grey image. Its `get_neighbors` uses its
    `x` argument as the row and its `y` argument as the column. */
module RenderOneBit {
  import opened Pixels
  import GrayscaleToOneBit

  /** The list this file's `get_neighbors(x, y, source)` returns: row
      `(x + dy) % height`, column `(y + dx) % width`, for the offsets in the
      same order as the grey-to-1-bit script. */
  function SwappedNeighbors(source: array2<Byte>, x: int, y: int): (n: seq<Byte>)
    requires source.Length0 > 0 && source.Length1 > 0
    reads source
    ensures |n| == 8
    ensures forall i :: 0 <= i < 8 ==>
      n[i] == source[(x + GrayscaleToOneBit.NeighborOffsets[i].1) % source.Length0,
                     (y + GrayscaleToOneBit.NeighborOffsets[i].0) % source.Length1]
  {
    var offsets := GrayscaleToOneBit.NeighborOffsets;
    seq(8, i requires 0 <= i < 8 reads source =>
      source[(x + offsets[i].1) % source.Length0, (y + offsets[i].0) % source.Length1])
  }

  /** Swapping the arguments gives the unswapped neighbours, read from the transposed
      position: row x and column y. */
  lemma SwappedIsTransposed(source: array2<Byte>, x: int, y: int)
    requires source.Length0 > 0 && source.Length1 > 0
    ensures SwappedNeighbors(source, x, y) == GrayscaleToOneBit.Neighbors(source, y, x)
  {
  }

  /** `get_neighbors`, appending in its double loop. */
  method GetNeighbors(x: int, y: int, source: array2<Byte>) returns (n: seq<Byte>)
    requires source.Length0 > 0 && source.Length1 > 0
    ensures n == SwappedNeighbors(source, x, y)
  {
    ghost var all := SwappedNeighbors(source, x, y);
    n := [];
    for nxo := -1 to 2
      invariant |n| == 3 * (nxo + 1) - (if nxo >= 1 then 1 else 0)
      invariant n == all[..|n|]
    {
      for nyo := -1 to 2
        invariant |n| == 3 * (nxo + 1) + (nyo + 1) - (if 3 * (nxo + 1) + (nyo + 1) >= 5 then 1 else 0)
        invariant n == all[..|n|]
      {
        if nxo == 0 && nyo == 0 {
          continue;
        }
        var ny := (x + nyo) % source.Length0;
        var nx := (y + nxo) % source.Length1;
        assert GrayscaleToOneBit.NeighborOffsets[|n|] == (nxo, nyo);
        n := n + [source[ny, nx]];
      }
    }
  }

  /** `255 * 0.5`, the cut-off for both neighbour counters. */
  const AdjacentThreshold: real := 255.0 * 0.5

  function CountAbove(s: seq<Byte>): nat
    decreases |s|
  {
    if s == [] then 0
    else CountAbove(s[..|s| - 1]) + (if s[|s| - 1] as real > AdjacentThreshold then 1 else 0)
  }

  function CountBelow(s: seq<Byte>): nat
    decreases |s|
  {
    if s == [] then 0
    else CountBelow(s[..|s| - 1]) + (if (s[|s| - 1] as real) < AdjacentThreshold then 1 else 0)
  }

  /** No byte equals 127.5, so every neighbour bumps exactly one counter. */
  lemma {:induction false} CountersPartition(s: seq<Byte>)
    ensures CountAbove(s) + CountBelow(s) == |s|
    decreases |s|
  {
    if s != [] {
      CountersPartition(s[..|s| - 1]);
    }
  }

  /** The decision of `one_bit_filter` for centre `c` and neighbour list `n`. */
  function OneBitDecision(c: Byte, n: seq<Byte>): (v: Byte)
    ensures v == 0 || v == 255
    ensures c >= 250 ==> v == 255
    ensures c <= 127 ==> v == 0
  {
    if c >= 250 then 255
    else if c as real > AdjacentThreshold && CountAbove(n) > 6 then 255
    else if c as real > AdjacentThreshold && CountBelow(n) > 6 then 255
    else 0
  }

  /** Between 128 and 249 the result is 255 exactly when 7 or 8 of the
      eight neighbours lie on the same side of 127.5. */
  lemma OneBitDecisionMiddle(c: Byte, n: seq<Byte>)
    requires 128 <= c < 250 && |n| == 8
    ensures OneBitDecision(c, n) == 255 <==> CountAbove(n) >= 7 || CountAbove(n) <= 1
  {
    CountersPartition(n);
  }

  /** `one_bit_filter(x, y, source)`: reads the centre at row y, column x,
      and counts neighbours in its loop only when the centre is below 250. */
  method OneBitFilter(x: nat, y: nat, source: array2<Byte>) returns (v: Byte)
    requires y < source.Length0 && x < source.Length1
    ensures v == OneBitDecision(source[y, x], SwappedNeighbors(source, x, y))
  {
    var cVal := source[y, x];
    if cVal >= 250 {
      return 255;
    }
    var neighbors := GetNeighbors(x, y, source);
    var aboveCount := 0;
    var belowCount := 0;
    for i := 0 to |neighbors|
      invariant aboveCount == CountAbove(neighbors[..i])
      invariant belowCount == CountBelow(neighbors[..i])
    {
      assert neighbors[..i + 1][..i] == neighbors[..i];
      if neighbors[i] as real > AdjacentThreshold {
        aboveCount := aboveCount + 1;
      }
      if (neighbors[i] as real) < AdjacentThreshold {
        belowCount := belowCount + 1;
      }
    }
    assert neighbors[..|neighbors|] == neighbors;
    if cVal as real > AdjacentThreshold && aboveCount > 6 {
      return 255;
    }
    if cVal as real > AdjacentThreshold && belowCount > 6 {
      return 255;
    }
    return 0;
  }

  /** What the filter makes of the pixel at row `y`, column `x`. */
  ghost function Filtered(input: array2<Byte>, y: nat, x: nat): Byte
    requires y < input.Length0 && x < input.Length1
    reads input
  {
    OneBitDecision(input[y, x], SwappedNeighbors(input, x, y))
  }

  /** The inner loop: row `y` of `output` gets the filter of each position. */
  method RenderRow(input: array2<Byte>, output: array2<Byte>, y: nat)
    requires output != input
    requires output.Length0 == input.Length0 && output.Length1 == input.Length1
    requires y < input.Length0
    modifies output
    ensures forall i :: 0 <= i < output.Length1 ==> output[y, i] == Filtered(input, y, i)
    ensures forall j, i :: 0 <= j < output.Length0 && j != y && 0 <= i < output.Length1 ==>
      output[j, i] == old(output[j, i])
  {
    for x := 0 to output.Length1
      invariant forall i :: 0 <= i < x ==> output[y, i] == Filtered(input, y, i)
      invariant forall j, i :: 0 <= j < output.Length0 && j != y && 0 <= i < output.Length1 ==>
        output[j, i] == old(output[j, i])
    {
      var v := OneBitFilter(x, y, input);
      output[y, x] := v;
    }
  }

  /** The module-level loops: a new array of the input's shape holding the
      filter at every position. */
  method Render(input: array2<Byte>) returns (output: array2<Byte>)
    ensures fresh(output)
    ensures output.Length0 == input.Length0 && output.Length1 == input.Length1
    ensures forall y, x :: 0 <= y < input.Length0 && 0 <= x < input.Length1 ==>
      output[y, x] == OneBitDecision(input[y, x], SwappedNeighbors(input, x, y))
  {
    output := new Byte[input.Length0, input.Length1]((_, _) => 0);
    for y := 0 to output.Length0
      invariant forall j, i :: 0 <= j < y && 0 <= i < output.Length1 ==> output[j, i] == Filtered(input, j, i)
    {
      RenderRow(input, output, y);
    }
  }
}
