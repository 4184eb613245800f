# LEGO Art map generator: the deterministic core, in Dafny

The LEGO Art map generator turns map data into a picture that can be built
from 1x1 LEGO tiles. Most of the repository is wiring around image, map and
drawing libraries. Under that wiring sit a few small, exact transforms and
tallies. This project models those and proves what they promise.

- **Brightness–tile proportions** (`BrightnessTileProportions`). This reads
  the tile distribution chart. The first CSV row labels each weight column
  with an inclusive `start-end` brightness range. Every later row names a
  tile and gives one weight per range. Each range is written out level by
  level, and a later write to the same level and tile replaces an earlier
  one. Then every level is divided by the sum of its weights. Each
  exception the reader can raise is an error value:
  - an empty row;
  - more weights than range labels;
  - a cell that is not a float;
  - a label that does not split into two parts on `-`;
  - a bound that is not an integer;
  - a level whose weights add up to 0.
- **Raster passes over pixel grids.** A pixel grid is an `array2`, indexed
  `[y, x]`.
  - The land shadow (`LandShadow`) paints one navy pixel right of every run
    of land, using a one-flag scan per row.
  - The sea colouring (`SeaColours`) puts one of eight colours on every
    black overlay pixel. The colour is picked by where the red channel of
    the sea image falls in a cumulative weight table. This includes
    Python's `[-1]`, which gives the darkest water the last colour.
  - The sea-depth grey map (`SeaGrayscale`) turns a depth into a grey byte,
    and skips pixels the land mask already covers.
  - The grey-to-1-bit filters (`GrayscaleToOneBit`) are threshold, identity
    and an 8-neighbour mean kernel. Both axes wrap around, and the filter is
    chosen by mode.
  - The second 1-bit filter (`RenderOneBit`) has a neighbour lookup whose
    row and column are swapped.
- **Command-line parsers** (`CliArgs`). `parse_size` reads `width,height`
  and `parse_center` reads `longitude,latitude`. Two scripts define them
  identically.
- **Tile tallies.**
  - The alias tables (`TileNames`) fall back to the name itself.
  - The Esri ASCII Grid header stripper and tokeniser is `AsciiGrid`.
  - The counting dictionaries of the four counting scripts are
    `CountTiles`, `CountTilesFromAscii`, `CountTilesFromImage` and
    `CompareTilesToSeaDepth`. They rest on `Tallies`, `Reports`, `Sorting`
    and `RasterScan`.

Code that updates state in place is modelled with methods, loops and their
invariants:
- pixels rewritten with `putpixel`;
- output arrays filled cell by cell;
- dictionaries incremented key by key;
- lists built by `append`.

Each method is proved against a specification function. The properties the
scripts promise are then lemmas about those functions:
- totals equal the sum of the parts and the pixel or token count;
- later writes win;
- normalised levels add up to 1;
- aliasing is idempotent;
- stripping is idempotent.

Python's `int()` and `float()` are passed in as partial parse functions
(`string -> Option<int>`, `string -> Option<real>`). Floating-point values
are exact reals.

## Model

| member | source | states |
|---|---|---|
| BrightnessTileProportions.ParseRangeMeaning | map_generator/brightness_tile_proportions.py:37-39 | a range label is accepted exactly when it holds one `-` and both sides parse as integers, and the bounds come back in order |
| BrightnessTileProportions.ParseRangeRoundTrip | map_generator/brightness_tile_proportions.py:37-39 | a label written as two decimals around `-` parses back to the same two bounds |
| BrightnessTileProportions.NegativeStartRefused | map_generator/brightness_tile_proportions.py:37-39 | a label starting with `-`, such as `-5-3`, is refused, because its first part is empty |
| BrightnessTileProportions.CellWriteMeaning | map_generator/brightness_tile_proportions.py:29-39 | a weight cell succeeds exactly when its column has a range label, its text is a float and the label parses; an extra cell with no label is an index error |
| BrightnessTileProportions.Levels | map_generator/brightness_tile_proportions.py:40 | `range(start, end + 1)` holds exactly the integers from start to end, and none when start > end |
| BrightnessTileProportions.PlaceLookup | map_generator/brightness_tile_proportions.py:40-43 | one range write adds exactly its levels, sets the tile's weight there and leaves every other (level, tile) entry unchanged |
| BrightnessTileProportions.PlaceEmpty | map_generator/brightness_tile_proportions.py:40-43 | a range whose start exceeds its end changes nothing |
| BrightnessTileProportions.RawTableIsLastWrite | map_generator/brightness_tile_proportions.py:26-43 | the raw table holds, for each level and tile, the weight of the last cell whose range covers that level; a level exists exactly when some range covers it, and never without a tile |
| BrightnessTileProportions.ChartCell | map_generator/brightness_tile_proportions.py:26-39 | in a successful read every data row names a tile, and every weight cell parsed and contributed its write |
| BrightnessTileProportions.MalformedRowFails | map_generator/brightness_tile_proportions.py:26-39 | an empty data row, a row with more weights than range labels, or a used label without exactly one `-` makes the read fail |
| BrightnessTileProportions.CellWeightReachesEveryLevel | map_generator/brightness_tile_proportions.py:26-43 | for a data row with tile t and a label s-e, every level from s to e holds a weight for t, namely the last one written there |
| BrightnessTileProportions.SetWeight | map_generator/brightness_tile_proportions.py:41-43 | creates the level when it is missing, then sets the tile's weight, keeping the other tiles of the level |
| BrightnessTileProportions.WriteRange | map_generator/brightness_tile_proportions.py:40-43 | the level loop produces the table with the whole range written |
| BrightnessTileProportions.ReadCell | map_generator/brightness_tile_proportions.py:31-43 | one cell either fails with the error of its first failing step or writes its range |
| BrightnessTileProportions.ReadRow | map_generator/brightness_tile_proportions.py:29-43 | the column loop writes the row's cells in order, or fails with the first cell's error |
| BrightnessTileProportions.ReadDataRow | map_generator/brightness_tile_proportions.py:26-43 | one data row extends the table of the rows before it, or raises on an empty row or a bad cell |
| BrightnessTileProportions.ChartTableStart | map_generator/brightness_tile_proportions.py:21-24 | the first row only supplies the labels and writes nothing |
| BrightnessTileProportions.ChartTableFailure | map_generator/brightness_tile_proportions.py:26-39 | once a row fails, the whole read fails with that error |
| BrightnessTileProportions.ReadRows | map_generator/brightness_tile_proportions.py:16-43 | the row loop yields the raw table of all writes in reading order, or the first error |
| BrightnessTileProportions.ReadFromCsv | map_generator/brightness_tile_proportions.py:16-52 | `read_from_csv` is the raw table normalised, or the first error |
| BrightnessTileProportions.NormaliseLevel | map_generator/brightness_tile_proportions.py:46-50 | dividing a level by its nonzero sum keeps its tiles, gives each tile weight/sum and makes the level add up to 1 |
| BrightnessTileProportions.NormaliseMeaning | map_generator/brightness_tile_proportions.py:46-50 | normalising keeps every level and every tile, sets each value to its weight divided by the level sum, and makes every level add up to 1 |
| BrightnessTileProportions.SingleTileLevel | map_generator/brightness_tile_proportions.py:46-50 | a level that only one tile reaches, with a nonzero weight, gets proportion 1 |
| BrightnessTileProportions.WeightSum | map_generator/brightness_tile_proportions.py:47 | `sum(tile_proportions.values())` is the sum of the level's weights, whatever the iteration order |
| BrightnessTileProportions.DivideLevel | map_generator/brightness_tile_proportions.py:48-50 | each tile of the level becomes its weight divided by the sum, and no tile is added or lost |
| BrightnessTileProportions.NormaliseLevels | map_generator/brightness_tile_proportions.py:46-50 | the normalisation loop gives the normalised table, or a division error when some level sums to 0 |
| MapSums.SumRealDivideAll | map_generator/brightness_tile_proportions.py:48-50 | dividing every value by d divides the sum by d |
| SeaColours.PrefixValues | map_generator/step_5_sea.py:37-50 | the cumulative colour weights, ending at the weight range 6786 |
| SeaColours.SelectColorIndex | map_generator/step_5_sea.py:55-59 | the `while` loop ends with the number of cumulative weights k in 1..8 with 255·(w0+…+w(k−1)) < 6786·r, and that number is at most 7 |
| SeaColours.ColorIndexBounded | map_generator/step_5_sea.py:57-59 | the index never reaches 8, so the length guard never ends the loop |
| SeaColours.ColorIndexBands | map_generator/step_5_sea.py:55-59 | the index as eight bands of the red value: 0..60, 61..130, 131..150, 151..189, 190..216, 217..238, 239..247, 248..255 |
| SeaColours.SeaColorChoice | map_generator/step_5_sea.py:55-60 | index 0 happens exactly for r ≤ 60 and then `[-1]` picks (237,106,112); otherwise the colour is the one before the index |
| SeaColours.ColorIndexMonotone | map_generator/step_5_sea.py:55-59 | a redder sea pixel never gets a lower index |
| SeaColours.SeaPixel | map_generator/step_5_sea.py:54-64 | a non-black overlay pixel is kept, and a black one becomes one of the eight sea colours |
| SeaColours.Render | map_generator/step_5_sea.py:52-64 | a non-black overlay pixel is left as it is; a black one becomes the sea colour chosen from the sea image's red channel at the same position, and the sea image is read only under black pixels and never written |
| LandShadow.Shadowed | lego_art_map_generator/render_land_shadow.py:25-32 | a pixel becomes (0,53,91) exactly when it is not land and its left neighbour is land; land pixels and column 0 are never changed |
| LandShadow.NoAdjacentShadows | lego_art_map_generator/render_land_shadow.py:28-32 | no two horizontally adjacent pixels are painted |
| LandShadow.RenderRow | lego_art_map_generator/render_land_shadow.py:25-32 | the in-place row scan gives each pixel of row y its shadowed value and leaves the other rows alone; the flag always says whether the input pixel to the left was land |
| LandShadow.Render | lego_art_map_generator/render_land_shadow.py:25-32 | after the double loop, every pixel is the shadowed value of the input, so no write affects a later read |
| GrayscaleToOneBit.NeighborOffsetsAreTheRing | map_generator/step_2_grayscale_to_1bit.py:15-18 | the neighbour offsets are the eight nonzero offsets of the 3x3 block, each once |
| GrayscaleToOneBit.Neighbors | map_generator/step_2_grayscale_to_1bit.py:12-22 | eight values, each read at ((y+dy) mod height, (x+dx) mod width) |
| GrayscaleToOneBit.GetNeighbors | map_generator/step_2_grayscale_to_1bit.py:12-22 | the appending double loop builds exactly that list |
| GrayscaleToOneBit.KernelDecision | map_generator/step_2_grayscale_to_1bit.py:27-37 | the kernel result is 0 or 255, and a centre of 0 gives 0 |
| GrayscaleToOneBit.KernelDecisionInIntegers | map_generator/step_2_grayscale_to_1bit.py:29-37 | the result is 0 if the mean exceeds 1.15·c, else 255 if it is below 0.85·c, else 255 exactly when c > 125 |
| GrayscaleToOneBit.KernelDecisionUniform | map_generator/step_2_grayscale_to_1bit.py:27-37 | when every neighbour equals the centre c, the result is 255 exactly when c > 125 |
| GrayscaleToOneBit.CustomKernelFilter | map_generator/step_2_grayscale_to_1bit.py:26-37 | `custom_kernel_filter` returns only 0 or 255, and 0 for a black centre |
| GrayscaleToOneBit.DitherFilter | map_generator/step_2_grayscale_to_1bit.py:40-41 | `dither_filter` returns the source value unchanged |
| GrayscaleToOneBit.ThresholdFilter | map_generator/step_2_grayscale_to_1bit.py:44-47 | `threshold_filter` returns 255 exactly when the value is above 128, else 0 |
| GrayscaleToOneBit.ModeOf | map_generator/step_2_grayscale_to_1bit.py:79-86 | each of the three mode names selects its filter, and any other string selects none |
| GrayscaleToOneBit.ConvertRow | map_generator/step_2_grayscale_to_1bit.py:89-94 | the inner loop sets each cell of row y to the filter at that position and leaves the other rows alone |
| GrayscaleToOneBit.ConvertGrayscaleTo1Bit | map_generator/step_2_grayscale_to_1bit.py:77-94 | an unknown mode fails with no array written; otherwise a new array of the input's shape holds the filter at every position |
| RenderOneBit.SwappedNeighbors | lego_art_map_generator/render_one_bit.py:21-31 | eight values, each read at row (x+dy) mod height and column (y+dx) mod width |
| RenderOneBit.SwappedIsTransposed | lego_art_map_generator/render_one_bit.py:21-31 | the swapped lookup at (x, y) is the ordinary neighbour list of the position with x and y exchanged |
| RenderOneBit.GetNeighbors | lego_art_map_generator/render_one_bit.py:21-31 | the appending double loop builds exactly that list |
| RenderOneBit.CountersPartition | lego_art_map_generator/render_one_bit.py:40-48 | no byte equals 127.5, so every neighbour bumps exactly one counter and the counters add up to the number of neighbours |
| RenderOneBit.OneBitDecision | lego_art_map_generator/render_one_bit.py:35-54 | the result is 0 or 255; a centre ≥ 250 gives 255, and a centre ≤ 127 gives 0 |
| RenderOneBit.OneBitDecisionMiddle | lego_art_map_generator/render_one_bit.py:49-54 | for 128 ≤ c < 250, the result is 255 exactly when at least 7 of the 8 neighbours lie on the same side of 127.5 |
| RenderOneBit.OneBitFilter | lego_art_map_generator/render_one_bit.py:35-54 | the counting loop returns the decision for the centre and its swapped neighbours |
| RenderOneBit.RenderRow | lego_art_map_generator/render_one_bit.py:59-65 | the inner loop sets each cell of row y to the filter at that position and leaves the other rows alone |
| RenderOneBit.Render | lego_art_map_generator/render_one_bit.py:58-65 | a new array of the input's shape holds the filter at every position |
| SeaGrayscale.DepthToGreyInIntegers | map_generator/step_4_sea_grayscale_utm_map.py:190 | the grey value is 255 − ⌈255·(−min(0,v))/10511⌉, computed in integers |
| SeaGrayscale.DepthToGreyRange | map_generator/step_4_sea_grayscale_utm_map.py:190 | for v ≥ −10511 the grey is a byte, 255 for v ≥ 0 and 0 for v = −10511 |
| SeaGrayscale.DepthToGreyMonotone | map_generator/step_4_sea_grayscale_utm_map.py:190 | deeper water is never lighter |
| SeaGrayscale.MaskedGrey | map_generator/step_4_sea_grayscale_utm_map.py:169-191 | a pixel whose mask is not black gets 255 without a depth lookup; a black one above sea level also gets 255 |
| SeaGrayscale.Render | map_generator/step_4_sea_grayscale_utm_map.py:163-191 | fails exactly when the canvas has a pixel and the mask does not reach every canvas pixel; otherwise a new array of the canvas shape holds the masked grey at every pixel |
| CliArgs.ParseSize | map_generator/step_4_sea_grayscale_utm_map.py:21-34 | fails unless there are exactly two comma-separated parts, both integers above 0; it then returns them in input order (map_generator/step_1_land_grayscale_utm_map.py:20-33 defines the same parser) |
| CliArgs.ParseSizeNeedsOneComma | map_generator/step_4_sea_grayscale_utm_map.py:22-27 | a text with no comma, or more than one, fails with the number of parts found |
| CliArgs.ParseSizeRoundTrip | map_generator/step_4_sea_grayscale_utm_map.py:21-34 | two positive integers written as `w,h` parse back to (w, h) |
| CliArgs.ParseCenter | map_generator/step_4_sea_grayscale_utm_map.py:37-59 | fails unless there are two parts that parse as floats, with longitude strictly in (−180, 180) and latitude strictly in (−90, 90); it returns longitude first (map_generator/step_1_land_grayscale_utm_map.py:36-58 defines the same parser) |
| CliArgs.ParseCenterRoundTrip | map_generator/step_1_land_grayscale_utm_map.py:36-58 | two in-range values written as `lon,lat` come back as (lon, lat) |
| TileNames.Alias | map_analysis/compare_tiles_to_sea_depth.py:20-22 | a listed name gives its label, and any other name gives itself |
| TileNames.RgbLabelsAreNotKeys | map_analysis/compare_tiles_to_sea_depth.py:8-19 | no label of the colour table is itself one of its keys |
| TileNames.RgbTileAliasIdempotent | map_analysis/compare_tiles_to_sea_depth.py:7-22 | aliasing a name twice is aliasing it once (map_analysis/count_tiles_from_image.py:7-22 defines the same table) |
| TileNames.FormatRgb | map_analysis/count_tiles_from_image.py:42 | `"%d,%d,%d" % pixel` holds exactly two commas |
| TileNames.FormatRgbSplit | map_analysis/count_tiles_from_image.py:42 | the key splits at its commas into the decimal forms of the red, green and blue channels |
| TileNames.FormatRgbInjective | map_analysis/count_tiles_from_image.py:42 | two pixels with the same key are the same pixel, so counting by key counts by colour |
| TileNames.NumberLabelsAreNotKeys | lego_art_map_generator/count_tiles_from_ascii.py:14-25 | no label of the number table is itself one of its keys |
| TileNames.NumberTileAliasIdempotent | lego_art_map_generator/count_tiles_from_ascii.py:13-28 | aliasing a token twice is aliasing it once |
| Text.DecimalStringInjective | map_analysis/compare_tiles_to_sea_depth.py:49 | two grey levels have the same decimal string only when they are equal |
| Tallies.Increment | map_analysis/count_tiles_from_image.py:44-46 | `if k not in d: d[k] = 0; d[k] += 1` raises k's count by one, starting from 0, and keeps every other key |
| Tallies.TallyCounts | map_analysis/count_tiles_from_image.py:44-46 | a key is present exactly when it was seen, its count is its number of occurrences, and so every stored count is at least 1 |
| Tallies.TallySum | map_analysis/count_tiles_from_image.py:41-46 | the counts add up to the number of keys counted |
| Tallies.Increment2 | map_analysis/compare_tiles_to_sea_depth.py:51-55 | the two-level increment creates a missing outer or inner key and raises that one count |
| Tallies.Tally2Counts | map_analysis/compare_tiles_to_sea_depth.py:51-55 | outer keys are the tile names seen; each inner count is the number of its (tile, value) pairs, hence at least 1 |
| Tallies.Tally2Column | map_analysis/compare_tiles_to_sea_depth.py:51-59 | the per-value total equals the sum over tile names of that value's inner count |
| RasterScan.FullScan | map_analysis/count_tiles_from_image.py:39-40 | the double loop visits each of the height·width pixels exactly once |
| CompareTilesToSeaDepth.TallyPixel | map_analysis/compare_tiles_to_sea_depth.py:48-59 | one pixel adds its (tile name, sea value) pair to both dictionaries |
| CompareTilesToSeaDepth.TallyRow | map_analysis/compare_tiles_to_sea_depth.py:47-59 | the inner loop counts the pairs of row y |
| CompareTilesToSeaDepth.Count | map_analysis/compare_tiles_to_sea_depth.py:46-59 | `tile_count` and `tile_total_count` are the tallies of the pairs of all pixels, in scan order |
| CompareTilesToSeaDepth.TileNamesMeaning | map_analysis/compare_tiles_to_sea_depth.py:48-52 | a tile name is counted exactly when some pixel of the tile image has it |
| CompareTilesToSeaDepth.TileCountMeaning | map_analysis/compare_tiles_to_sea_depth.py:51-55 | each inner count is the number of pixels with that tile name and sea value, and is at least 1 |
| CompareTilesToSeaDepth.TotalCountMeaning | map_analysis/compare_tiles_to_sea_depth.py:49-59 | every counted sea value is the decimal form of a level below 256; each total is the sum of its counts over tile names; the totals add up to width·height |
| CompareTilesToSeaDepth.CountsRow | map_analysis/compare_tiles_to_sea_depth.py:67-71 | 256 counts, one per grey level, with 0 for unseen levels |
| CompareTilesToSeaDepth.TileRows | map_analysis/compare_tiles_to_sea_depth.py:74-81 | one row of 256 counts per tile name, in the given order |
| CompareTilesToSeaDepth.Report | map_analysis/compare_tiles_to_sea_depth.py:65-81 | the "Total" row, then one row for each tile name in strictly ascending order, each with 256 counts |
| CountTilesFromImage.TallyRow | map_analysis/count_tiles_from_image.py:40-46 | the inner loop counts the names of row y and adds the row width to the total |
| CountTilesFromImage.TallyPixels | map_analysis/count_tiles_from_image.py:39-46 | `tile_count` is the tally of the pixel names in scan order, and `total_count` is width·height |
| CountTilesFromImage.Count | map_analysis/count_tiles_from_image.py:31-51 | the tally, then one report line per name in ascending order, and the total last |
| CountTilesFromImage.CountMeaning | map_analysis/count_tiles_from_image.py:39-46 | a name is listed exactly when some pixel has it; its count is the number of such pixels, at least 1; the counts add up to width·height |
| Reports.NameOrderReport | map_analysis/count_tiles_from_image.py:49-51 | one line per key with its count, in strictly ascending name order, then the total |
| Reports.FindUnparsable | count_tiles.py:41 | returns a key `int` refuses, or reports that every key parses |
| Reports.IntOrderReport | count_tiles.py:41-44 | fails exactly when some key is not an integer; otherwise one line per key, sorted by integer value, then the total |
| Sorting.SortBy | count_tiles.py:41 | `sorted` with a key gives a permutation of its input, ordered by that key |
| Sorting.SortedKeys | map_analysis/count_tiles_from_image.py:49 | `sorted(d.keys())` lists every key once, in strictly ascending order |
| AsciiGrid.Search | count_tiles.py:19 | the search result is a position where `^\d[^a-z\n]+$` matches |
| AsciiGrid.SearchLeftmost | count_tiles.py:19-21 | the search finds the leftmost match, and fails only when there is none |
| AsciiGrid.StripMeaning | count_tiles.py:19-23 | stripping fails exactly when no line is a data line; otherwise it returns the suffix from the first data line on (lego_art_map_generator/count_tiles_from_ascii.py:31-42 defines the same stripper) |
| AsciiGrid.HeaderLinesDoNotMatch | count_tiles.py:19-22 | no position of the dropped header starts a data line |
| AsciiGrid.StripIdempotent | count_tiles.py:19-22 | stripping the stripped text returns it unchanged |
| AsciiGrid.SplitLines | count_tiles.py:29 | no line holds a newline |
| AsciiGrid.CsvRow | count_tiles.py:29 | a non-empty line splits into one more field than it has spaces, and no field holds a space |
| AsciiGrid.FlattenTokens | count_tiles.py:29-33 | no token holds a space or a newline |
| AsciiGrid.FileTokens | count_tiles.py:28-29 | reading one file fails exactly when it has no data line |
| AsciiGrid.AllTokensFailure | count_tiles.py:27-29 | the run over all files fails exactly when some file has no data line |
| AsciiGrid.TallyRow | count_tiles.py:33-38 | the token loop adds each token's name to the tally and to the total |
| AsciiGrid.TallyRows | count_tiles.py:32-38 | the row loop adds the tokens of every row, in order |
| AsciiGrid.TallyFiles | count_tiles.py:27-38 | the file loop yields the tally of all tokens of all files, and their number as the total, or the stripping error |
| AsciiGrid.CountsAccumulate | count_tiles.py:27-38 | counts carry over between files: one more file adds its own occurrences to each count |
| CountTiles.Run | count_tiles.py:27-44 | the whole script: the tally, the total, and the report sorted by integer value; it fails on a file without data lines or on a token `int` refuses |
| CountTiles.CountMeaning | count_tiles.py:32-38 | each token's count is its number of occurrences over all files, and the counts add up to the total |
| CountTilesFromAscii.AliasIsNotANumber | lego_art_map_generator/count_tiles_from_ascii.py:13-28 | an aliased token is never one of the numbers 1 to 10 |
| CountTilesFromAscii.Run | lego_art_map_generator/count_tiles_from_ascii.py:47-64 | the whole script: the tally of the aliased tokens, the total, and the report in name order; it fails exactly when a file has no data line |
| CountTilesFromAscii.CountMeaning | lego_art_map_generator/count_tiles_from_ascii.py:53-59 | the numbers 1 to 10 are never counted, only their labels; a name's count is the number of tokens aliased to it; the counts add up to the total |

## Left out

- Image and file input and output are not modelled: PIL open, convert and save, `Path.read_text`, and click argument handling. Images are given grids, and files are given texts.
- The land script's `render` (shapefile reading and cairo drawing) is not modelled. Neither are the GeoTIFF lookup and read in the sea grey script. `SeaGrayscale.Render` takes the depth at each pixel as an input array, and requires every depth under a black mask pixel to be at least −10511.
- The pixel-to-coordinate projection in the sea grey script is not modelled, because it is floating-point library code.
- `PIL.Image.convert('1')`, PIL's own dithering at the end of the two 1-bit scripts, is not modelled.
- map_generator/step_5_sea_2.py is not modelled. Every function in it is `pass`, and the allocator its comments describe does not exist.
- The latitude-stretch projections, polygon drawing, the natural_earth download and the proportions visualisation are not part of this model.
- Python's `int()`, `float()` and `str.split` details (whitespace, signs, underscores, NaN, Unicode digits) are abstract parse functions. `\d` and `[a-z]` are restricted to ASCII.
- Floats are exact reals. So the 1.15 and 0.85 comparisons, the `/255 * weight_range` scaling and the normalised proportions may differ from IEEE results at exact ties. The sea colour bands and the depth formula are the exact integer readings.
- `str.splitlines()` is modelled for `\n` only. `csv.reader` is modelled as splitting on single spaces with no quote handling, and as turning an empty line into no row.
- Dictionary iteration order is not modelled. The normalisation loop visits levels in some order, and the sum of a level is order-independent over exact reals.
- Reports.IntOrderReport: when several keys are not integers, the error names one of them, not necessarily the one Python's sort meets first. Keys with equal integer values (such as `7` and `07`) come out in some order, whereas Python keeps dictionary order.
- Report printing is not modelled: column widths, `str(row)[1:-1]`, and the header line `tile, 0, …, 255` of the sea depth comparison. The reports are lists of lines.
- SeaColours.Render: a black overlay pixel outside the sea image makes PIL raise an IndexError. The model requires the sea image to reach every black overlay pixel and does not include that error.
- SeaGrayscale.Render: the row number printed at the start of each output row is not modelled.
- CompareTilesToSeaDepth.Count: requires the sea image to be at least as large as the tile image. A smaller sea image makes PIL raise, and the model does not include that error.
- The `--mode` choice is matched case-sensitively. click's `case_sensitive=False` hands the canonical lower-case name to the function, so the function only ever sees the three names or an unknown string.
- `read_from_csv` accepts only `start-end` labels. A single-value label raises at the unpack, and levels that no range covers stay absent: nothing is interpolated.
- The alias function of count_tiles_from_ascii.py reads the global `tile_name`. At its only call site that global equals the argument, so `TileNames.NumberTileAlias` takes the argument.
