/** `count_tiles.py`: count the tokens of a set of ASCII Grid files and
    list them in the order of their integer value, with the total last. */
module CountTiles {
  import opened Wrappers
  import opened Tallies
  import opened AsciiGrid
  import Reports
  import MapSums

  datatype RunError = Grid(GridError) | NotAnInteger(name: string)

  /** The script keeps every token as it is. */
  function Verbatim(token: string): string {
    token
  }

  lemma NamesVerbatim(tokens: seq<string>)
    ensures Names(Verbatim, tokens) == tokens
  {
  }

  /** The whole script: the tally over all files, then the report sorted
      with `key=int`. A file without data lines, or a token `int` refuses,
      stops it. */
  method Run(files: seq<string>, parseInt: string -> Option<int>)
    returns (r: Result<(map<string, nat>, nat, seq<Reports.ReportLine>), RunError>)
    ensures AllTokens(files).Failure? ==> r.Failure? && r.error.Grid?
    ensures AllTokens(files).Success? ==>
              var tokens := AllTokens(files).value;
              && (r.Failure? <==> exists k :: k in tokens && parseInt(k).None?)
              && (r.Failure? ==> r.error.NotAnInteger? && r.error.name in tokens && parseInt(r.error.name).None?)
    ensures r.Success? ==>
              var tokens := AllTokens(files).value;
              && AllTokens(files).Success?
              && r.value.0 == Tally(tokens)
              && r.value.1 == |tokens|
              && Reports.IsReport(r.value.2, r.value.0, r.value.1)
              && forall i, j :: 0 <= i < j < |r.value.2| - 1 ==>
                   Reports.IntKey(parseInt, r.value.2[i].name) <= Reports.IntKey(parseInt, r.value.2[j].name)
  {
    var tally := TallyFiles(files, Verbatim);
    if tally.Failure? {
      return Failure(Grid(tally.error));
    }
    var (tileCount, totalCount) := tally.value;
    ghost var tokens := AllTokens(files).value;
    NamesVerbatim(tokens);
    forall k ensures k in tileCount <==> k in tokens {
      TallyCounts(tokens, k);
    }
    var report := Reports.IntOrderReport(tileCount, totalCount, parseInt);
    if report.Failure? {
      return Failure(NotAnInteger(report.error));
    }
    return Success((tileCount, totalCount, report.value));
  }

  /** What the printed numbers mean: a token's count is the number of its
      occurrences over all files, and the total is the sum of the counts. */
  lemma CountMeaning(files: seq<string>, k: string)
    requires AllTokens(files).Success?
    ensures var tokens := AllTokens(files).value;
      && (k in Tally(tokens) <==> k in tokens)
      && CountOf(Tally(tokens), k) == Count(tokens, k)
      && MapSums.SumNat(Tally(tokens)) == |tokens|
  {
    TallyCounts(AllTokens(files).value, k);
    TallySum(AllTokens(files).value);
  }
}
