/** `map_analysis/count_tiles_from_image.py`: count the pixels of a rendered
    map by colour, naming the ten palette colours by their tile label. */
module CountTilesFromImage {
  import opened Pixels
  import TileNames
  import opened Tallies
  import opened RasterScan
  import MapSums
  import Reports
  import Text

  predicate InImage<T>(image: array2<T>, ps: seq<(nat, nat)>) {
    forall k :: 0 <= k < |ps| ==> ps[k].0 < image.Length0 && ps[k].1 < image.Length1
  }

  /** The tile names of the pixels at `ps`, in order. */
  function NamesAt(image: array2<Rgb>, ps: seq<(nat, nat)>): (r: seq<string>)
    requires InImage(image, ps)
    reads image
    ensures |r| == |ps|
    ensures forall k :: 0 <= k < |ps| ==> r[k] == TileNames.PixelName(image[ps[k].0, ps[k].1])
  {
    seq(|ps|, k requires 0 <= k < |ps| reads image => TileNames.PixelName(image[ps[k].0, ps[k].1]))
  }

  /** The names the scan has counted before it reaches (y, x). */
  ghost function ScannedNames(image: array2<Rgb>, y: nat, x: nat): seq<string>
    requires x <= image.Length1 && (y < image.Length0 || (y == image.Length0 && x == 0))
    reads image
  {
    NamesAt(image, Positions(image.Length1, y, x))
  }

  /** One more step of the scan names one more pixel. */
  lemma ScanStep(image: array2<Rgb>, y: nat, x: nat)
    requires y < image.Length0 && x < image.Length1
    ensures ScannedNames(image, y, x + 1) == ScannedNames(image, y, x) + [TileNames.PixelName(image[y, x])]
  {
  }

  /** One pass of the inner `for x` loop over row `y`. */
  method TallyRow(image: array2<Rgb>, y: nat, tileCount0: map<string, nat>, totalCount0: nat)
    returns (tileCount: map<string, nat>, totalCount: nat)
    requires y < image.Length0
    requires tileCount0 == Tally(ScannedNames(image, y, 0))
    requires totalCount0 == y * image.Length1
    ensures tileCount == Tally(ScannedNames(image, y + 1, 0))
    ensures totalCount == (y + 1) * image.Length1
  {
    tileCount, totalCount := tileCount0, totalCount0;
    for x := 0 to image.Length1
      invariant tileCount == Tally(ScannedNames(image, y, x))
      invariant totalCount == y * image.Length1 + x
    {
      totalCount := totalCount + 1;
      var tileName := TileNames.PixelName(image[y, x]);
      ScanStep(image, y, x);
      TallyAppend(ScannedNames(image, y, x), tileName);
      tileCount := Increment(tileCount, tileName);
    }
    assert Positions(image.Length1, y + 1, 0) == Positions(image.Length1, y, image.Length1);
  }

  /** The script's double loop: `tile_count` counts the visited pixels by
      name and `total_count` counts them all. */
  method TallyPixels(image: array2<Rgb>) returns (tileCount: map<string, nat>, totalCount: nat)
    ensures tileCount == Tally(ScannedNames(image, image.Length0, 0))
    ensures totalCount == image.Length0 * image.Length1
  {
    tileCount := map[];
    totalCount := 0;
    for y := 0 to image.Length0
      invariant tileCount == Tally(ScannedNames(image, y, 0))
      invariant totalCount == y * image.Length1
    {
      tileCount, totalCount := TallyRow(image, y, tileCount, totalCount);
    }
  }

  /** `count`: the tally, then the report in name order with the total last. */
  method Count(image: array2<Rgb>) returns (tileCount: map<string, nat>, totalCount: nat, report: seq<Reports.ReportLine>)
    ensures tileCount == Tally(ScannedNames(image, image.Length0, 0))
    ensures totalCount == image.Length0 * image.Length1
    ensures Reports.IsReport(report, tileCount, totalCount)
    ensures forall i, j :: 0 <= i < j < |report| - 1 ==>
              Text.LexLe(report[i].name, report[j].name) && report[i].name != report[j].name
  {
    tileCount, totalCount := TallyPixels(image);
    report := Reports.NameOrderReport(tileCount, totalCount);
  }

  /** What the counts mean: a name is listed exactly when some pixel has
      it, its count is the number of such pixels and at least one, and the
      counts add up to the number of pixels. */
  lemma CountMeaning(image: array2<Rgb>, n: string)
    ensures var names := ScannedNames(image, image.Length0, 0);
      && (n in Tally(names) <==>
            exists j, i :: 0 <= j < image.Length0 && 0 <= i < image.Length1 && TileNames.PixelName(image[j, i]) == n)
      && (n in Tally(names) ==> Tally(names)[n] >= 1)
      && CountOf(Tally(names), n) == Tallies.Count(names, n)
      && MapSums.SumNat(Tally(names)) == image.Length0 * image.Length1
  {
    var names := ScannedNames(image, image.Length0, 0);
    FullScan(image.Length0, image.Length1);
    TallyCounts(names, n);
    TallySum(names);
    if n in names {
      var k :| 0 <= k < |names| && names[k] == n;
      ScannedNameHasPixel(image, k);
    }
    if exists j, i :: 0 <= j < image.Length0 && 0 <= i < image.Length1 && TileNames.PixelName(image[j, i]) == n {
      var j, i :| 0 <= j < image.Length0 && 0 <= i < image.Length1 && TileNames.PixelName(image[j, i]) == n;
      PixelIsScanned(image, j, i);
    }
  }

  /** Every scanned name is the name of some pixel. */
  lemma ScannedNameHasPixel(image: array2<Rgb>, k: nat)
    requires k < |ScannedNames(image, image.Length0, 0)|
    ensures exists j, i :: 0 <= j < image.Length0 && 0 <= i < image.Length1 &&
              ScannedNames(image, image.Length0, 0)[k] == TileNames.PixelName(image[j, i])
  {
    var ps := Positions(image.Length1, image.Length0, 0);
    assert Before(image.Length1, ps[k].0, ps[k].1, image.Length0, 0);
  }

  /** The name of every pixel is scanned. */
  lemma PixelIsScanned(image: array2<Rgb>, j: nat, i: nat)
    requires j < image.Length0 && i < image.Length1
    ensures TileNames.PixelName(image[j, i]) in ScannedNames(image, image.Length0, 0)
  {
    var ps := Positions(image.Length1, image.Length0, 0);
    PositionsComplete(image.Length1, image.Length0, 0, j, i);
    var k :| 0 <= k < |ps| && ps[k] == (j, i);
    assert ScannedNames(image, image.Length0, 0)[k] == TileNames.PixelName(image[j, i]);
  }
}
