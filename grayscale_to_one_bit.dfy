/** map_generator/step_2_grayscale_to_1bit.py: a per-pixel filter over the
    red channel of a grey image, picked by the `--mode` option, writing a new
    byte array of the same shape. */
module GrayscaleToOneBit {
  import opened Wrappers
  import opened Pixels

  /** The (dx, dy) offsets `get_neighbors` visits, in its order: dx in the
      outer loop, dy in the inner one, skipping (0, 0). */
  const NeighborOffsets: seq<(int, int)> :=
    [(-1, -1), (-1, 0), (-1, 1), (0, -1), (0, 1), (1, -1), (1, 0), (1, 1)]

  predicate InRing(dx: int, dy: int) {
    -1 <= dx <= 1 && -1 <= dy <= 1 && !(dx == 0 && dy == 0)
  }

  /** The offsets are the eight nonzero offsets of the 3x3 block, each once. */
  lemma NeighborOffsetsAreTheRing()
    ensures |NeighborOffsets| == 8
    ensures forall i :: 0 <= i < 8 ==> InRing(NeighborOffsets[i].0, NeighborOffsets[i].1)
    ensures forall i, j :: 0 <= i < j < 8 ==> NeighborOffsets[i] != NeighborOffsets[j]
    ensures forall dx, dy :: InRing(dx, dy) ==> (dx, dy) in NeighborOffsets
  {
  }

  /** `source[row % height, col % width]`: both axes wrap around. */
  function Wrapped(source: array2<Byte>, col: int, row: int): Byte
    requires source.Length0 > 0 && source.Length1 > 0
    reads source
  {
    source[row % source.Length0, col % source.Length1]
  }

  /** The list `get_neighbors(x, y, source)` returns. */
  function Neighbors(source: array2<Byte>, x: int, y: int): (n: seq<Byte>)
    requires source.Length0 > 0 && source.Length1 > 0
    reads source
    ensures |n| == |NeighborOffsets|
    ensures forall i :: 0 <= i < |n| ==>
      n[i] == Wrapped(source, x + NeighborOffsets[i].0, y + NeighborOffsets[i].1)
  {
    [Wrapped(source, x - 1, y - 1), Wrapped(source, x - 1, y), Wrapped(source, x - 1, y + 1),
     Wrapped(source, x, y - 1), Wrapped(source, x, y + 1),
     Wrapped(source, x + 1, y - 1), Wrapped(source, x + 1, y), Wrapped(source, x + 1, y + 1)]
  }

  /** `get_neighbors`, building the list by appending in its double loop. */
  method GetNeighbors(x: int, y: int, source: array2<Byte>) returns (n: seq<Byte>)
    requires source.Length0 > 0 && source.Length1 > 0
    ensures n == Neighbors(source, x, y)
  {
    ghost var all := Neighbors(source, x, y);
    n := [];
    for dx := -1 to 2
      invariant |n| == 3 * (dx + 1) - (if dx >= 1 then 1 else 0)
      invariant n == all[..|n|]
    {
      for dy := -1 to 2
        invariant |n| == 3 * (dx + 1) + (dy + 1) - (if 3 * (dx + 1) + (dy + 1) >= 5 then 1 else 0)
        invariant n == all[..|n|]
      {
        if dx == 0 && dy == 0 {
          continue;
        }
        var ny := (y + dy) % source.Length0;
        var nx := (x + dx) % source.Length1;
        assert NeighborOffsets[|n|] == (dx, dy);
        n := n + [source[ny, nx]];
      }
    }
  }

  function Sum(s: seq<Byte>): nat
    decreases |s|
  {
    if s == [] then 0 else Sum(s[..|s| - 1]) + s[|s| - 1]
  }

  /** The decision of `custom_kernel_filter` for centre `c` and its
      neighbours, comparing their mean with 1.15 and 0.85 times the centre. */
  function KernelDecision(c: Byte, neighbors: seq<Byte>): (v: Byte)
    requires |neighbors| == 8
    ensures v == 0 || v == 255
    ensures c == 0 ==> v == 0
  {
    var mean := (Sum(neighbors) as real) / (|neighbors| as real);
    if mean > (c as real) * 1.15 then 0
    else if mean < (c as real) * 0.85 then 255
    else if c > 125 then 255
    else 0
  }

  /** The same decision in integers: mean > 1.15 c is 5 * sum > 46 c and
      mean < 0.85 c is 5 * sum < 34 c. */
  lemma KernelDecisionInIntegers(c: Byte, neighbors: seq<Byte>)
    requires |neighbors| == 8
    ensures KernelDecision(c, neighbors) ==
      if 5 * Sum(neighbors) > 46 * c then 0
      else if 5 * Sum(neighbors) < 34 * c then 255
      else if c > 125 then 255
      else 0
  {
    var s := Sum(neighbors) as real;
    assert s / 8.0 > (c as real) * 1.15 <==> 5.0 * s > 46.0 * (c as real);
    assert s / 8.0 < (c as real) * 0.85 <==> 5.0 * s < 34.0 * (c as real);
  }

  lemma {:induction false} SumConstant(s: seq<Byte>, c: Byte)
    requires forall i :: 0 <= i < |s| ==> s[i] == c
    ensures Sum(s) == |s| * c
    decreases |s|
  {
    if s != [] {
      SumConstant(s[..|s| - 1], c);
    }
  }

  /** When every neighbour equals the centre, only the 125 cut-off decides. */
  lemma KernelDecisionUniform(c: Byte, neighbors: seq<Byte>)
    requires |neighbors| == 8
    requires forall i :: 0 <= i < 8 ==> neighbors[i] == c
    ensures KernelDecision(c, neighbors) == (if c > 125 then 255 else 0)
  {
    SumConstant(neighbors, c);
    KernelDecisionInIntegers(c, neighbors);
  }

  function CustomKernelFilter(x: nat, y: nat, source: array2<Byte>): (v: Byte)
    requires y < source.Length0 && x < source.Length1
    reads source
    ensures v == 0 || v == 255
    ensures source[y, x] == 0 ==> v == 0
  {
    KernelDecision(source[y, x], Neighbors(source, x, y))
  }

  function DitherFilter(x: nat, y: nat, source: array2<Byte>): (v: Byte)
    requires y < source.Length0 && x < source.Length1
    reads source
    ensures v == source[y, x]
  {
    source[y, x]
  }

  function ThresholdFilter(x: nat, y: nat, source: array2<Byte>): (v: Byte)
    requires y < source.Length0 && x < source.Length1
    reads source
    ensures v == 0 || v == 255
    ensures v == 255 <==> source[y, x] > 128
  {
    if source[y, x] > 128 then 255 else 0
  }

  datatype Mode = Threshold | Dither | Custom1

  /** The mode dispatch of `convert_grayscale_to_1bit`; any other string
      makes it raise. */
  function ModeOf(mode: string): (m: Option<Mode>)
    ensures m == Some(Threshold) <==> mode == "threshold"
    ensures m == Some(Dither) <==> mode == "dither"
    ensures m == Some(Custom1) <==> mode == "custom_1"
  {
    if mode == "threshold" then Some(Threshold)
    else if mode == "dither" then Some(Dither)
    else if mode == "custom_1" then Some(Custom1)
    else None
  }

  function ApplyFilter(m: Mode, x: nat, y: nat, source: array2<Byte>): Byte
    requires y < source.Length0 && x < source.Length1
    reads source
  {
    match m
    case Threshold => ThresholdFilter(x, y, source)
    case Dither => DitherFilter(x, y, source)
    case Custom1 => CustomKernelFilter(x, y, source)
  }

  datatype ConvertError = UnknownMode(mode: string)

  /** The inner loop of `convert_grayscale_to_1bit` over row `y`. */
  method ConvertRow(filter: Mode, input: array2<Byte>, output: array2<Byte>, y: nat)
    requires output != input
    requires output.Length0 == input.Length0 && output.Length1 == input.Length1
    requires y < input.Length0
    modifies output
    ensures forall i :: 0 <= i < output.Length1 ==> output[y, i] == ApplyFilter(filter, i, y, input)
    ensures forall j, i :: 0 <= j < output.Length0 && j != y && 0 <= i < output.Length1 ==>
      output[j, i] == old(output[j, i])
  {
    for x := 0 to output.Length1
      invariant forall i :: 0 <= i < x ==> output[y, i] == ApplyFilter(filter, i, y, input)
      invariant forall j, i :: 0 <= j < output.Length0 && j != y && 0 <= i < output.Length1 ==>
        output[j, i] == old(output[j, i])
    {
      output[y, x] := ApplyFilter(filter, x, y, input);
    }
  }

  /** The pixel loop of `convert_grayscale_to_1bit`: a new array of the
      input's shape, each cell the chosen filter at that position. An unknown
      mode fails before any pixel is computed. */
  method ConvertGrayscaleTo1Bit(input: array2<Byte>, mode: string)
    returns (r: Result<array2<Byte>, ConvertError>)
    ensures r.Failure? <==> ModeOf(mode).None?
    ensures r.Failure? ==> r.error == UnknownMode(mode)
    ensures r.Success? ==>
      && fresh(r.value)
      && r.value.Length0 == input.Length0 && r.value.Length1 == input.Length1
      && forall y, x :: 0 <= y < input.Length0 && 0 <= x < input.Length1 ==>
           r.value[y, x] == ApplyFilter(ModeOf(mode).value, x, y, input)
  {
    var output := new Byte[input.Length0, input.Length1]((_, _) => 0);
    var m := ModeOf(mode);
    if m.None? {
      return Failure(UnknownMode(mode));
    }
    var filter := m.value;
    for y := 0 to output.Length0
      invariant forall j, i :: 0 <= j < y && 0 <= i < output.Length1 ==>
        output[j, i] == ApplyFilter(filter, i, j, input)
    {
      ConvertRow(filter, input, output, y);
    }
    return Success(output);
  }
}
