/** `map_analysis/compare_tiles_to_sea_depth.py`: for every tile colour of
    a rendered map, how often it falls on each grey level of the sea depth
    image, plus the totals per grey level. */
module CompareTilesToSeaDepth {
  import opened Pixels
  import TileNames
  import opened Tallies
  import opened RasterScan
  import MapSums
  import Text
  import Sorting

  /** The scan runs over the tile image and reads the sea image at the same
      place, so the sea image must be at least as large. */
  predicate Covers(tile: array2<Rgb>, sea: array2<Rgb>) {
    sea.Length0 >= tile.Length0 && sea.Length1 >= tile.Length1
  }

  predicate InTile(tile: array2<Rgb>, ps: seq<(nat, nat)>) {
    forall k :: 0 <= k < |ps| ==> ps[k].0 < tile.Length0 && ps[k].1 < tile.Length1
  }

  /** `str(sea_image.getpixel((x, y))[0])`: the red channel in decimal. */
  function SeaValue(p: Rgb): string {
    Text.DecimalString(p.r)
  }

  /** The (tile name, sea value) pairs at positions `ps`, in order, for a
      tile naming `name`; the script names tiles by `TileNames.PixelName`. */
  function PairsAt(tile: array2<Rgb>, sea: array2<Rgb>, name: Rgb -> string, ps: seq<(nat, nat)>): (r: seq<(string, string)>)
    requires Covers(tile, sea) && InTile(tile, ps)
    reads tile, sea
    ensures |r| == |ps|
    ensures forall k :: 0 <= k < |ps| ==>
              r[k] == (name(tile[ps[k].0, ps[k].1]), SeaValue(sea[ps[k].0, ps[k].1]))
  {
    seq(|ps|, k requires 0 <= k < |ps| reads tile, sea =>
      (name(tile[ps[k].0, ps[k].1]), SeaValue(sea[ps[k].0, ps[k].1])))
  }

  /** The pairs the scan has counted before it reaches (y, x). */
  ghost function ScannedPairs(tile: array2<Rgb>, sea: array2<Rgb>, name: Rgb -> string, y: nat, x: nat): seq<(string, string)>
    requires Covers(tile, sea)
    requires x <= tile.Length1 && (y < tile.Length0 || (y == tile.Length0 && x == 0))
    reads tile, sea
  {
    PairsAt(tile, sea, name, Positions(tile.Length1, y, x))
  }

  lemma ScanStep(tile: array2<Rgb>, sea: array2<Rgb>, name: Rgb -> string, y: nat, x: nat)
    requires Covers(tile, sea) && y < tile.Length0 && x < tile.Length1
    ensures ScannedPairs(tile, sea, name, y, x + 1)
         == ScannedPairs(tile, sea, name, y, x) + [(name(tile[y, x]), SeaValue(sea[y, x]))]
  {
  }

  /** Finishing row `y` is starting row `y + 1`. */
  lemma ScanNextRow(tile: array2<Rgb>, sea: array2<Rgb>, name: Rgb -> string, y: nat)
    requires Covers(tile, sea) && y < tile.Length0
    ensures ScannedPairs(tile, sea, name, y + 1, 0) == ScannedPairs(tile, sea, name, y, tile.Length1)
  {
    assert Positions(tile.Length1, y + 1, 0) == Positions(tile.Length1, y, tile.Length1);
  }

  /** The body of the inner loop: one more (tile name, sea value) pair is
      counted in both dictionaries. */
  method TallyPixel(tileName: string, seaValue: string, ghost before: seq<(string, string)>,
                    tileCount0: map<string, map<string, nat>>, tileTotalCount0: map<string, nat>)
    returns (tileCount: map<string, map<string, nat>>, tileTotalCount: map<string, nat>)
    requires tileCount0 == Tally2(before) && tileTotalCount0 == Tally(Seconds(before))
    ensures tileCount == Tally2(before + [(tileName, seaValue)])
    ensures tileTotalCount == Tally(Seconds(before + [(tileName, seaValue)]))
  {
    tileCount := Increment2(tileCount0, tileName, seaValue);
    tileTotalCount := Increment(tileTotalCount0, seaValue);
    TallyStep(before, (tileName, seaValue));
  }

  /** Counting one more pair is one increment of each dictionary. */
  lemma TallyStep(before: seq<(string, string)>, p: (string, string))
    ensures Tally2(before + [p]) == Inc2(Tally2(before), p.0, p.1)
    ensures Tally(Seconds(before + [p])) == Inc(Tally(Seconds(before)), p.1)
  {
    Tally2Append(before, p);
    SecondsAppend(before, p);
    TallyAppend(Seconds(before), p.1);
  }

  /** One pass of the inner `for x` loop over row `y`. */
  method TallyRow(tile: array2<Rgb>, sea: array2<Rgb>, name: Rgb -> string, y: nat,
                  tileCount0: map<string, map<string, nat>>, tileTotalCount0: map<string, nat>)
    returns (tileCount: map<string, map<string, nat>>, tileTotalCount: map<string, nat>)
    requires Covers(tile, sea) && y < tile.Length0
    requires tileCount0 == Tally2(ScannedPairs(tile, sea, name, y, 0))
    requires tileTotalCount0 == Tally(Seconds(ScannedPairs(tile, sea, name, y, 0)))
    ensures tileCount == Tally2(ScannedPairs(tile, sea, name, y + 1, 0))
    ensures tileTotalCount == Tally(Seconds(ScannedPairs(tile, sea, name, y + 1, 0)))
  {
    tileCount, tileTotalCount := tileCount0, tileTotalCount0;
    for x := 0 to tile.Length1
      invariant tileCount == Tally2(ScannedPairs(tile, sea, name, y, x))
      invariant tileTotalCount == Tally(Seconds(ScannedPairs(tile, sea, name, y, x)))
    {
      var tileName := name(tile[y, x]);
      var seaValue := SeaValue(sea[y, x]);
      ScanStep(tile, sea, name, y, x);
      tileCount, tileTotalCount := TallyPixel(tileName, seaValue, ScannedPairs(tile, sea, name, y, x), tileCount, tileTotalCount);
    }
    ScanNextRow(tile, sea, name, y);
  }

  /** The script's double loop over the tile image: `tile_count` counts
      the pixels by tile name and sea value, `tile_total_count` by sea
      value alone. */
  method Count(tile: array2<Rgb>, sea: array2<Rgb>)
    returns (tileCount: map<string, map<string, nat>>, tileTotalCount: map<string, nat>)
    requires Covers(tile, sea)
    ensures tileCount == Tally2(ScannedPairs(tile, sea, TileNames.PixelName, tile.Length0, 0))
    ensures tileTotalCount == Tally(Seconds(ScannedPairs(tile, sea, TileNames.PixelName, tile.Length0, 0)))
  {
    tileCount, tileTotalCount := map[], map[];
    for y := 0 to tile.Length0
      invariant tileCount == Tally2(ScannedPairs(tile, sea, TileNames.PixelName, y, 0))
      invariant tileTotalCount == Tally(Seconds(ScannedPairs(tile, sea, TileNames.PixelName, y, 0)))
    {
      tileCount, tileTotalCount := TallyRow(tile, sea, TileNames.PixelName, y, tileCount, tileTotalCount);
    }
  }

  /** A tile name is counted exactly when some pixel of the tile image has
      it. */
  lemma TileNamesMeaning(tile: array2<Rgb>, sea: array2<Rgb>, name: Rgb -> string, t: string)
    requires Covers(tile, sea)
    ensures t in Tally2(ScannedPairs(tile, sea, name, tile.Length0, 0)) <==>
              exists j, i :: 0 <= j < tile.Length0 && 0 <= i < tile.Length1 && name(tile[j, i]) == t
  {
    var pairs := ScannedPairs(tile, sea, name, tile.Length0, 0);
    Tally2Counts(pairs, t, "");
    if t in Tally2(pairs) {
      var k :| 0 <= k < |pairs| && pairs[k].0 == t;
      CountedPairHasPixel(tile, sea, name, k);
    }
    if exists j, i :: 0 <= j < tile.Length0 && 0 <= i < tile.Length1 && name(tile[j, i]) == t {
      var j, i :| 0 <= j < tile.Length0 && 0 <= i < tile.Length1 && name(tile[j, i]) == t;
      PixelHasCountedPair(tile, sea, name, j, i);
    }
  }

  /** Every counted pair comes from a pixel of the tile image. */
  lemma CountedPairHasPixel(tile: array2<Rgb>, sea: array2<Rgb>, name: Rgb -> string, k: nat)
    requires Covers(tile, sea)
    requires k < |ScannedPairs(tile, sea, name, tile.Length0, 0)|
    ensures exists j, i :: 0 <= j < tile.Length0 && 0 <= i < tile.Length1 &&
              ScannedPairs(tile, sea, name, tile.Length0, 0)[k] == (name(tile[j, i]), SeaValue(sea[j, i]))
  {
    var ps := Positions(tile.Length1, tile.Length0, 0);
    assert Before(tile.Length1, ps[k].0, ps[k].1, tile.Length0, 0);
  }

  /** Every pixel of the tile image is counted, as the pair it makes with
      the sea image. */
  lemma PixelHasCountedPair(tile: array2<Rgb>, sea: array2<Rgb>, name: Rgb -> string, j: nat, i: nat)
    requires Covers(tile, sea) && j < tile.Length0 && i < tile.Length1
    ensures exists k :: 0 <= k < |ScannedPairs(tile, sea, name, tile.Length0, 0)| &&
              ScannedPairs(tile, sea, name, tile.Length0, 0)[k] == (name(tile[j, i]), SeaValue(sea[j, i]))
  {
    var ps := Positions(tile.Length1, tile.Length0, 0);
    PositionsComplete(tile.Length1, tile.Length0, 0, j, i);
    var k :| 0 <= k < |ps| && ps[k] == (j, i);
    assert ScannedPairs(tile, sea, name, tile.Length0, 0)[k] == (name(tile[j, i]), SeaValue(sea[j, i]));
  }

  /** Each inner count is the number of pixels with that tile name and sea
      value, hence at least 1 where present. */
  lemma TileCountMeaning(tile: array2<Rgb>, sea: array2<Rgb>, name: Rgb -> string, t: string, v: string)
    requires Covers(tile, sea)
    ensures var pairs := ScannedPairs(tile, sea, name, tile.Length0, 0);
      && CountOf2(Tally2(pairs), t, v) == Tallies.Count(pairs, (t, v))
      && (t in Tally2(pairs) && v in Tally2(pairs)[t] ==> Tally2(pairs)[t][v] >= 1)
  {
    Tally2Counts(ScannedPairs(tile, sea, name, tile.Length0, 0), t, v);
  }

  /** The totals: every sea value counted is the decimal form of a grey
      level, the total of a grey level is the sum of its counts over all
      tile names, and the totals add up to the number of pixels. */
  lemma TotalCountMeaning(tile: array2<Rgb>, sea: array2<Rgb>, name: Rgb -> string, v: string)
    requires Covers(tile, sea)
    ensures var pairs := ScannedPairs(tile, sea, name, tile.Length0, 0);
      && (v in Tally(Seconds(pairs)) ==> exists level: nat :: level < 256 && v == Text.DecimalString(level))
      && CountOf(Tally(Seconds(pairs)), v) == MapSums.SumNat(Column(Tally2(pairs), v))
      && MapSums.SumNat(Tally(Seconds(pairs))) == tile.Length0 * tile.Length1
  {
    var ps := Positions(tile.Length1, tile.Length0, 0);
    var pairs := ScannedPairs(tile, sea, name, tile.Length0, 0);
    Tally2Column(pairs, v);
    TallyCounts(Seconds(pairs), v);
    TallySum(Seconds(pairs));
    if v in Tally(Seconds(pairs)) {
      var k :| 0 <= k < |pairs| && Seconds(pairs)[k] == v;
      assert v == Text.DecimalString(sea[ps[k].0, ps[k].1].r);
    }
  }

  /** One printed row: a label and 256 counts, one per grey level. */
  datatype Row = Row(name: string, counts: seq<nat>)

  /** The inner `for sea_value in range(2 ** 8)` loop: the count of every
      grey level in order, 0 for the levels never seen. */
  method CountsRow(counts: map<string, nat>) returns (row: seq<nat>)
    ensures |row| == 256
    ensures forall level :: 0 <= level < 256 ==> row[level] == CountOf(counts, Text.DecimalString(level))
  {
    row := [];
    for level := 0 to 256
      invariant |row| == level
      invariant forall l :: 0 <= l < level ==> row[l] == CountOf(counts, Text.DecimalString(l))
    {
      var seaValue := Text.DecimalString(level);
      if seaValue !in counts {
        row := row + [0];
      } else {
        row := row + [counts[seaValue]];
      }
    }
  }

  /** The printed table below the header line: the "Total" row, then one
      row per tile name in sorted order. */
  method Report(tileCount: map<string, map<string, nat>>, tileTotalCount: map<string, nat>)
    returns (rows: seq<Row>)
    ensures |rows| == |tileCount| + 1
    ensures rows[0].name == "Total" && |rows[0].counts| == 256
    ensures forall level :: 0 <= level < 256 ==>
              rows[0].counts[level] == CountOf(tileTotalCount, Text.DecimalString(level))
    ensures forall i :: 1 <= i < |rows| ==> rows[i].name in tileCount && |rows[i].counts| == 256
    ensures forall i, level :: 1 <= i < |rows| && 0 <= level < 256 ==>
              rows[i].counts[level] == CountOf2(tileCount, rows[i].name, Text.DecimalString(level))
    ensures forall t :: t in tileCount ==> exists i :: 1 <= i < |rows| && rows[i].name == t
    ensures forall i, j :: 1 <= i < j < |rows| ==>
              Text.LexLe(rows[i].name, rows[j].name) && rows[i].name != rows[j].name
  {
    var totals := CountsRow(tileTotalCount);
    var names := Sorting.SortedKeys(tileCount);
    var tileRows := TileRows(tileCount, names);
    rows := [Row("Total", totals)] + tileRows;
    forall t | t in tileCount ensures exists i :: 1 <= i < |rows| && rows[i].name == t {
      var k :| 0 <= k < |names| && names[k] == t;
      assert rows[k + 1].name == t;
    }
  }

  /** The outer loop over the sorted tile names: one row each. */
  method TileRows(tileCount: map<string, map<string, nat>>, names: seq<string>) returns (rows: seq<Row>)
    requires forall i :: 0 <= i < |names| ==> names[i] in tileCount
    ensures |rows| == |names|
    ensures forall i :: 0 <= i < |rows| ==> rows[i].name == names[i] && |rows[i].counts| == 256
    ensures forall i, level :: 0 <= i < |rows| && 0 <= level < 256 ==>
              rows[i].counts[level] == CountOf2(tileCount, names[i], Text.DecimalString(level))
  {
    rows := [];
    for n := 0 to |names|
      invariant |rows| == n
      invariant forall i :: 0 <= i < n ==> rows[i].name == names[i] && |rows[i].counts| == 256
      invariant forall i, level :: 0 <= i < n && 0 <= level < 256 ==>
                  rows[i].counts[level] == CountOf2(tileCount, names[i], Text.DecimalString(level))
    {
      var row := CountsRow(tileCount[names[n]]);
      rows := rows + [Row(names[n], row)];
    }
  }
}
