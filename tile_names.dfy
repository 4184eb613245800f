/** The tile-name alias tables of the counting scripts, and the "%d,%d,%d"
    rendering of a pixel that the image-based ones look up. */
module TileNames {
  import opened Pixels
  import Text

  /** The table of `get_tile_name_alias` in map_analysis/count_tiles_from_image.py
      and map_analysis/compare_tiles_to_sea_depth.py (the two are identical). */
  const RgbAliases: map<string, string> := map[
    "255,255,255" := "01 - White",
    "0,53,91" := "02 - Navy",
    "19,183,210" := "03 - Cyan",
    "0,153,150" := "04 - Teal",
    "0,161,55" := "05 - Green",
    "162,197,16" := "06 - Olive",
    "226,202,144" := "07 - Beige",
    "248,172,0" := "08 - Yellow",
    "238,117,0" := "09 - Orange",
    "237,106,112" := "10 - Coral"
  ]

  /** The table of `get_tile_name_alias` in lego_art_map_generator/count_tiles_from_ascii.py. */
  const NumberAliases: map<string, string> := map[
    "1" := "01 - White",
    "2" := "02 - Navy",
    "3" := "03 - Cyan",
    "4" := "04 - Teal",
    "5" := "05 - Green",
    "6" := "06 - Olive",
    "7" := "07 - Beige",
    "8" := "08 - Yellow",
    "9" := "09 - Orange",
    "10" := "10 - Coral"
  ]

  /** A table lookup that falls back to the name itself. */
  function Alias(table: map<string, string>, name: string): (r: string)
    ensures name in table ==> r == table[name]
    ensures name !in table ==> r == name
  {
    if name in table then table[name] else name
  }

  /** `get_tile_name_alias` of the two image scripts. */
  function RgbTileAlias(name: string): string {
    Alias(RgbAliases, name)
  }

  /** `get_tile_name_alias` of count_tiles_from_ascii.py. Its body tests the
      global `tile_name`, which at its only call site is the argument. */
  function NumberTileAlias(name: string): string {
    Alias(NumberAliases, name)
  }

  /** `get_tile_name_alias("%d,%d,%d" % pixel)` in the two image scripts. */
  function PixelName(p: Rgb): string {
    RgbTileAlias(FormatRgb(p))
  }

  /** No label of either table is itself a key of it. */
  lemma RgbLabelsAreNotKeys()
    ensures RgbAliases.Keys !! RgbAliases.Values
  {
  }

  lemma NumberLabelsAreNotKeys()
    ensures NumberAliases.Keys !! NumberAliases.Values
  {
  }

  /** Aliasing twice is aliasing once. */
  lemma RgbTileAliasIdempotent(name: string)
    ensures RgbTileAlias(RgbTileAlias(name)) == RgbTileAlias(name)
  {
    RgbLabelsAreNotKeys();
    if name in RgbAliases {
      assert RgbAliases[name] in RgbAliases.Values;
    }
  }

  lemma NumberTileAliasIdempotent(name: string)
    ensures NumberTileAlias(NumberTileAlias(name)) == NumberTileAlias(name)
  {
    NumberLabelsAreNotKeys();
    if name in NumberAliases {
      assert NumberAliases[name] in NumberAliases.Values;
    }
  }

  /** `"%d,%d,%d" % pixel`. */
  function FormatRgb(p: Rgb): (s: string)
    ensures Text.Occurrences(s, ',') == 2
  {
    var r, g, b := Text.DecimalString(p.r), Text.DecimalString(p.g), Text.DecimalString(p.b);
    DecimalHasNoComma(p.r);
    DecimalHasNoComma(p.g);
    DecimalHasNoComma(p.b);
    Text.OccurrencesAppend(r + [','] + g + [','], b, ',');
    Text.OccurrencesAppend(r + [','] + g, [','], ',');
    Text.OccurrencesAppend(r + [','], g, ',');
    Text.OccurrencesAppend(r, [','], ',');
    assert Text.Occurrences([','], ',') == 1;
    r + [','] + g + [','] + b
  }

  /** The key splits back at its commas into the three channel numbers. */
  lemma FormatRgbSplit(p: Rgb)
    ensures Text.Split(FormatRgb(p), ',') ==
      [Text.DecimalString(p.r), Text.DecimalString(p.g), Text.DecimalString(p.b)]
  {
    var r, g, b := Text.DecimalString(p.r), Text.DecimalString(p.g), Text.DecimalString(p.b);
    var parts := [r, g, b];
    DecimalHasNoComma(p.r);
    DecimalHasNoComma(p.g);
    DecimalHasNoComma(p.b);
    Text.OccurrencesZero(r, ',');
    Text.OccurrencesZero(g, ',');
    Text.OccurrencesZero(b, ',');
    assert parts[1..] == [g, b] && parts[1..][1..] == [b];
    assert Text.Join([b], ',') == b;
    assert Text.Join([g, b], ',') == g + [','] + b;
    assert Text.Join(parts, ',') == r + [','] + (g + [','] + b);
    assert r + [','] + (g + [','] + b) == r + [','] + g + [','] + b == FormatRgb(p);
    Text.SplitJoin(parts, ',');
  }

  /** Distinct pixels never share a key, so counting by key counts by
      colour. */
  lemma FormatRgbInjective(p: Rgb, q: Rgb)
    ensures FormatRgb(p) == FormatRgb(q) ==> p == q
  {
    if FormatRgb(p) == FormatRgb(q) {
      FormatRgbSplit(p);
      FormatRgbSplit(q);
      Text.DecimalStringInjective(p.r, q.r);
      Text.DecimalStringInjective(p.g, q.g);
      Text.DecimalStringInjective(p.b, q.b);
    }
  }

  lemma DecimalHasNoComma(n: nat)
    ensures Text.Occurrences(Text.DecimalString(n), ',') == 0
  {
    var s := Text.DecimalString(n);
    assert ',' !in s by {
      forall i | 0 <= i < |s| ensures s[i] != ',' {
        assert Text.IsAsciiDigit(s[i]);
      }
    }
    Text.OccurrencesZero(s, ',');
  }
}
