/** `lego_art_map_generator/count_tiles_from_ascii.py`: count the tokens
    of a set of ASCII Grid files under their tile labels and list them in
    name order, with the total last. */
module CountTilesFromAscii {
  import opened Wrappers
  import opened Tallies
  import opened AsciiGrid
  import TileNames
  import Reports
  import Text
  import MapSums

  /** The whole script: the tally of the aliased tokens over all files,
      then the report in name order. A file without data lines stops it. */
  method Run(files: seq<string>)
    returns (r: Result<(map<string, nat>, nat, seq<Reports.ReportLine>), GridError>)
    ensures r.Failure? <==> AllTokens(files).Failure?
    ensures r.Success? ==>
              var tokens := AllTokens(files).value;
              && r.value.0 == Tally(Names(TileNames.NumberTileAlias, tokens))
              && r.value.1 == |tokens|
              && Reports.IsReport(r.value.2, r.value.0, r.value.1)
              && forall i, j :: 0 <= i < j < |r.value.2| - 1 ==>
                   Text.LexLe(r.value.2[i].name, r.value.2[j].name) && r.value.2[i].name != r.value.2[j].name
  {
    var tally := TallyFiles(files, TileNames.NumberTileAlias);
    if tally.Failure? {
      return Failure(tally.error);
    }
    var (tileCount, totalCount) := tally.value;
    var report := Reports.NameOrderReport(tileCount, totalCount);
    return Success((tileCount, totalCount, report));
  }

  /** An alias is never one of the table's numbers. */
  lemma AliasIsNotANumber(token: string)
    ensures TileNames.NumberTileAlias(token) !in TileNames.NumberAliases
  {
    TileNames.NumberLabelsAreNotKeys();
    if token in TileNames.NumberAliases {
      assert TileNames.NumberAliases[token] in TileNames.NumberAliases.Values;
    }
  }

  /** What the printed numbers mean: the numbers 1 to 10 are never listed,
      only their labels; a name is listed exactly when some token aliases
      to it, with the number of such tokens; and the total is the sum of
      the counts. */
  lemma CountMeaning(files: seq<string>, n: string)
    requires AllTokens(files).Success?
    ensures var names := Names(TileNames.NumberTileAlias, AllTokens(files).value);
      && (n in TileNames.NumberAliases ==> n !in Tally(names))
      && (n in Tally(names) <==> exists i :: 0 <= i < |names| && TileNames.NumberTileAlias(AllTokens(files).value[i]) == n)
      && CountOf(Tally(names), n) == Count(names, n)
      && MapSums.SumNat(Tally(names)) == |AllTokens(files).value|
  {
    var tokens := AllTokens(files).value;
    var names := Names(TileNames.NumberTileAlias, tokens);
    TallyCounts(names, n);
    TallySum(names);
    if n in TileNames.NumberAliases && n in names {
      var i :| 0 <= i < |names| && names[i] == n;
      AliasIsNotANumber(tokens[i]);
    }
  }
}
