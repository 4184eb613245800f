/** The ASCII Grid reading shared by `count_tiles.py` and
    `lego_art_map_generator/count_tiles_from_ascii.py`: the header is cut off
    at the first data line, the rest is split into lines and the lines into
    space-separated tokens, and every token is counted. */
module AsciiGrid {
  import opened Wrappers
  import Text
  import opened Tallies

  /** Position `i` starts a line: the start of the text, or just after a
      newline. */
  predicate LineStart(s: string, i: nat) {
    i == 0 || (i <= |s| && s[i - 1] == '\n')
  }

  /** The end of the line holding position `i`: the index of the next
      newline, or the end of the text. */
  function LineEnd(s: string, i: nat): (e: nat)
    requires i <= |s|
    ensures i <= e <= |s|
    ensures e == |s| || s[e] == '\n'
    ensures forall k :: i <= k < e ==> s[k] != '\n'
    decreases |s| - i
  {
    if i == |s| || s[i] == '\n' then i else LineEnd(s, i + 1)
  }

  /** The pattern `^\d[^a-z\n]+$` in MULTILINE mode matches at `i`: `i`
      starts a line, holds a digit, and the line goes on for at least one
      more character, none of them a lower-case letter. The class cannot
      cross a newline and `$` matches only before a newline or at the end,
      so a match always runs to the end of its line. */
  predicate MatchesAt(s: string, i: nat) {
    && i < |s|
    && LineStart(s, i)
    && Text.IsAsciiDigit(s[i])
    && LineEnd(s, i) >= i + 2
    && forall k :: i < k < LineEnd(s, i) ==> !Text.IsAsciiLower(s[k])
  }

  /** `re.search` from position `from`: the first position where the
      pattern matches. */
  function Search(s: string, from: nat): (r: Option<nat>)
    requires from <= |s|
    ensures r.Some? ==> from <= r.value < |s| && MatchesAt(s, r.value)
    decreases |s| - from
  {
    if from == |s| then None
    else if MatchesAt(s, from) then Some(from)
    else Search(s, from + 1)
  }

  /** The search finds the leftmost match, and fails only when there is
      none. */
  lemma {:induction false} SearchLeftmost(s: string, from: nat)
    requires from <= |s|
    ensures Search(s, from).None? ==> forall j :: from <= j < |s| ==> !MatchesAt(s, j)
    ensures Search(s, from).Some? ==> forall j :: from <= j < Search(s, from).value ==> !MatchesAt(s, j)
    decreases |s| - from
  {
    if from < |s| && !MatchesAt(s, from) {
      SearchLeftmost(s, from + 1);
    }
  }

  datatype GridError = UnexpectedContents

  /** `strip_ascii_grid_header`: the text from the first data line on, or
      an error when no line is a data line. */
  function StripAsciiGridHeader(contents: string): Result<string, GridError> {
    match Search(contents, 0)
    case None => Failure(UnexpectedContents)
    case Some(index) => Success(contents[index..])
  }

  /** Stripping fails exactly when no line is a data line; otherwise it
      keeps the suffix that starts at the first data line. */
  lemma StripMeaning(contents: string)
    ensures StripAsciiGridHeader(contents).Failure? <==>
              forall j :: 0 <= j < |contents| ==> !MatchesAt(contents, j)
    ensures StripAsciiGridHeader(contents).Success? ==>
              exists index :: 0 <= index < |contents|
                && StripAsciiGridHeader(contents).value == contents[index..]
                && MatchesAt(contents, index)
                && forall j :: 0 <= j < index ==> !MatchesAt(contents, j)
  {
    SearchLeftmost(contents, 0);
    if Search(contents, 0).Some? {
      var index := Search(contents, 0).value;
      assert contents[index..] == StripAsciiGridHeader(contents).value;
    }
  }

  /** The header lines all start with a non-digit, or hold a lower-case
      letter, or are a lone character: every line before the first data
      line is such a line. */
  lemma HeaderLinesDoNotMatch(contents: string, j: nat)
    requires StripAsciiGridHeader(contents).Success?
    requires j < |contents| - |StripAsciiGridHeader(contents).value|
    ensures !MatchesAt(contents, j)
  {
    SearchLeftmost(contents, 0);
  }

  /** A line end moves with the text when a prefix is cut off. */
  lemma {:induction false} LineEndShift(s: string, index: nat, i: nat)
    requires index + i <= |s|
    ensures LineEnd(s[index..], i) == LineEnd(s, index + i) - index
    decreases |s| - (index + i)
  {
    if index + i < |s| && s[index + i] != '\n' {
      LineEndShift(s, index, i + 1);
    }
  }

  /** Stripping twice strips nothing more: the kept text already starts
      with a data line. */
  lemma StripIdempotent(contents: string)
    requires StripAsciiGridHeader(contents).Success?
    ensures StripAsciiGridHeader(StripAsciiGridHeader(contents).value) == StripAsciiGridHeader(contents)
  {
    var index := Search(contents, 0).value;
    var rest := contents[index..];
    LineEndShift(contents, index, 0);
    assert MatchesAt(rest, 0);
    assert rest[0..] == rest;
  }

  /** `str.splitlines()` on text whose only line break is '\n': the pieces
      between newlines, with no empty piece after a final newline. */
  function SplitLines(s: string): (lines: seq<string>)
    ensures forall i :: 0 <= i < |lines| ==> '\n' !in lines[i]
  {
    if s == [] then []
    else
      var parts := Text.Split(s, '\n');
      if parts[|parts| - 1] == [] then parts[..|parts| - 1] else parts
  }

  /** One row of `csv.reader(lines, delimiter=' ')` without quote
      handling: the fields between single spaces, and no field at all for
      an empty line. */
  function CsvRow(line: string): (row: seq<string>)
    ensures forall i :: 0 <= i < |row| ==> ' ' !in row[i]
    ensures '\n' !in line ==> forall i :: 0 <= i < |row| ==> '\n' !in row[i]
    ensures line != [] ==> |row| == Text.Occurrences(line, ' ') + 1
  {
    if line == [] then []
    else
      SplitKeepsOut(line, ' ', '\n');
      Text.Split(line, ' ')
  }

  /** A character absent from a text is absent from every piece of its
      split. */
  lemma {:induction false} SplitKeepsOut(s: string, sep: char, c: char)
    ensures c !in s ==> forall i :: 0 <= i < |Text.Split(s, sep)| ==> c !in Text.Split(s, sep)[i]
    decreases |s|
  {
    if s != [] && c !in s {
      assert c !in s[1..] by { assert forall k :: 0 <= k < |s| - 1 ==> s[1..][k] == s[k + 1]; }
      SplitKeepsOut(s[1..], sep, c);
    }
  }

  /** The tokens of a run of rows, row after row. */
  function Flatten(rows: seq<seq<string>>): (tokens: seq<string>)
    decreases |rows|
  {
    if rows == [] then [] else Flatten(rows[..|rows| - 1]) + rows[|rows| - 1]
  }

  /** The rows of all lines of a text. */
  function Rows(lines: seq<string>): (rows: seq<seq<string>>)
    ensures |rows| == |lines|
    ensures forall i :: 0 <= i < |lines| ==> rows[i] == CsvRow(lines[i])
  {
    seq(|lines|, i requires 0 <= i < |lines| => CsvRow(lines[i]))
  }

  /** The tokens of one grid file, in reading order, or the stripping
      error. */
  function FileTokens(contents: string): (r: Result<seq<string>, GridError>)
    ensures r.Failure? <==> !Strippable(contents)
  {
    match StripAsciiGridHeader(contents)
    case Failure(e) => Failure(e)
    case Success(data) => Success(Flatten(Rows(SplitLines(data))))
  }

  predicate Strippable(contents: string) {
    StripAsciiGridHeader(contents).Success?
  }

  /** The tokens of all files, one file after the other; the first file
      that cannot be stripped stops the run. */
  function AllTokens(files: seq<string>): Result<seq<string>, GridError> {
    Concat(seq(|files|, f requires 0 <= f < |files| => FileTokens(files[f])))
  }

  /** The tokens of a run of per-file results, or the first error. */
  function Concat(results: seq<Result<seq<string>, GridError>>): Result<seq<string>, GridError>
    decreases |results|
  {
    if results == [] then Success([])
    else Then(Concat(results[..|results| - 1]), results[|results| - 1])
  }

  /** The tokens read so far followed by those of one more file, or the
      first error. */
  function Then(before: Result<seq<string>, GridError>, next: Result<seq<string>, GridError>): (r: Result<seq<string>, GridError>)
    ensures r.Failure? <==> before.Failure? || next.Failure?
    ensures r.Success? ==> r.value == before.value + next.value
  {
    match before
    case Failure(e) => Failure(e)
    case Success(tokens) =>
      match next
      case Failure(e) => Failure(e)
      case Success(more) => Success(tokens + more)
  }

  /** A run of results fails exactly when one of them does. */
  lemma {:induction false} ConcatFailure(results: seq<Result<seq<string>, GridError>>)
    ensures Concat(results).Failure? <==> exists f :: 0 <= f < |results| && results[f].Failure?
    decreases |results|
  {
    if results != [] {
      var init := results[..|results| - 1];
      ConcatFailure(init);
      if Concat(init).Failure? {
        var f :| 0 <= f < |init| && init[f].Failure?;
        assert results[f] == init[f];
      } else if results[|results| - 1].Success? {
        forall f | 0 <= f < |results| ensures results[f].Success? {
          if f < |init| {
            assert results[f] == init[f];
          }
        }
      }
    }
  }

  /** The run fails exactly when some file has no data line. */
  lemma AllTokensFailure(files: seq<string>)
    ensures AllTokens(files).Failure? <==> exists f :: 0 <= f < |files| && !Strippable(files[f])
  {
    var results := seq(|files|, f requires 0 <= f < |files| => FileTokens(files[f]));
    ConcatFailure(results);
    if exists f :: 0 <= f < |files| && !Strippable(files[f]) {
      var f :| 0 <= f < |files| && !Strippable(files[f]);
      assert results[f].Failure?;
    }
  }

  /** One more file adds its tokens to the run, or fails it. */
  lemma AllTokensStep(files: seq<string>, f: nat)
    requires f < |files|
    ensures AllTokens(files[..f + 1]) == Then(AllTokens(files[..f]), FileTokens(files[f]))
  {
    var prefix := files[..f + 1];
    var results := seq(|prefix|, i requires 0 <= i < |prefix| => FileTokens(prefix[i]));
    assert AllTokens(prefix) == Concat(results);
    assert results[..f] == seq(|files[..f]|, i requires 0 <= i < |files[..f]| => FileTokens(files[..f][i]));
    assert results[f] == FileTokens(files[f]);
  }

  /** No token holds a space or a newline. */
  lemma {:induction false} FlattenTokens(lines: seq<string>)
    requires forall i :: 0 <= i < |lines| ==> '\n' !in lines[i]
    ensures forall i :: 0 <= i < |Flatten(Rows(lines))| ==>
              ' ' !in Flatten(Rows(lines))[i] && '\n' !in Flatten(Rows(lines))[i]
    decreases |lines|
  {
    if lines != [] {
      var n := |lines| - 1;
      assert Rows(lines)[..n] == Rows(lines[..n]);
      FlattenTokens(lines[..n]);
    }
  }

  /** The tally loops: every token of every file, renamed by `name`, is
      counted once in `tileCount` and once in `totalCount`. */
  ghost function Names(name: string -> string, tokens: seq<string>): (r: seq<string>)
    ensures |r| == |tokens|
    ensures forall i :: 0 <= i < |tokens| ==> r[i] == name(tokens[i])
  {
    seq(|tokens|, i requires 0 <= i < |tokens| => name(tokens[i]))
  }

  /** The innermost loop, over the tokens of one row. */
  method TallyRow(row: seq<string>, name: string -> string, ghost seen: seq<string>,
                  tileCount0: map<string, nat>, totalCount0: nat)
    returns (tileCount: map<string, nat>, totalCount: nat)
    requires tileCount0 == Tally(Names(name, seen)) && totalCount0 == |seen|
    ensures tileCount == Tally(Names(name, seen + row)) && totalCount == |seen + row|
  {
    tileCount, totalCount := tileCount0, totalCount0;
    assert seen + row[..0] == seen;
    for t := 0 to |row|
      invariant tileCount == Tally(Names(name, seen + row[..t]))
      invariant totalCount == |seen| + t
    {
      var tileName := name(row[t]);
      NamesStep(name, seen, row, t);
      TallyAppend(Names(name, seen + row[..t]), tileName);
      tileCount := Increment(tileCount, tileName);
      totalCount := totalCount + 1;
    }
    assert row[..|row|] == row;
  }

  lemma NamesStep(name: string -> string, seen: seq<string>, row: seq<string>, t: nat)
    requires t < |row|
    ensures Names(name, seen + row[..t + 1]) == Names(name, seen + row[..t]) + [name(row[t])]
  {
    assert seen + row[..t + 1] == (seen + row[..t]) + [row[t]];
  }

  /** The loop over the rows of one file. */
  method TallyRows(rows: seq<seq<string>>, name: string -> string, ghost seen: seq<string>,
                   tileCount0: map<string, nat>, totalCount0: nat)
    returns (tileCount: map<string, nat>, totalCount: nat)
    requires tileCount0 == Tally(Names(name, seen)) && totalCount0 == |seen|
    ensures tileCount == Tally(Names(name, seen + Flatten(rows)))
    ensures totalCount == |seen + Flatten(rows)|
  {
    tileCount, totalCount := tileCount0, totalCount0;
    assert seen + Flatten(rows[..0]) == seen;
    for r := 0 to |rows|
      invariant tileCount == Tally(Names(name, seen + Flatten(rows[..r])))
      invariant totalCount == |seen + Flatten(rows[..r])|
    {
      FlattenStep(rows, r, seen);
      tileCount, totalCount := TallyRow(rows[r], name, seen + Flatten(rows[..r]), tileCount, totalCount);
    }
    assert rows[..|rows|] == rows;
  }

  lemma FlattenStep(rows: seq<seq<string>>, r: nat, seen: seq<string>)
    requires r < |rows|
    ensures seen + Flatten(rows[..r + 1]) == (seen + Flatten(rows[..r])) + rows[r]
  {
    assert rows[..r + 1][..r] == rows[..r];
  }

  /** The loop over the files, with the counting dictionary and the total
      kept across files. */
  method TallyFiles(files: seq<string>, name: string -> string)
    returns (r: Result<(map<string, nat>, nat), GridError>)
    ensures r.Failure? <==> AllTokens(files).Failure?
    ensures r.Success? ==> r.value.0 == Tally(Names(name, AllTokens(files).value))
    ensures r.Success? ==> r.value.1 == |AllTokens(files).value|
  {
    var tileCount: map<string, nat> := map[];
    var totalCount := 0;
    for f := 0 to |files|
      invariant AllTokens(files[..f]).Success?
      invariant tileCount == Tally(Names(name, AllTokens(files[..f]).value))
      invariant totalCount == |AllTokens(files[..f]).value|
    {
      AllTokensStep(files, f);
      var contents := StripAsciiGridHeader(files[f]);
      if contents.Failure? {
        AllTokensFailure(files);
        assert !Strippable(files[f]);
        return Failure(contents.error);
      }
      var rows := Rows(SplitLines(contents.value));
      tileCount, totalCount := TallyRows(rows, name, AllTokens(files[..f]).value, tileCount, totalCount);
    }
    assert files[..|files|] == files;
    return Success((tileCount, totalCount));
  }

  /** The count of a name over two runs of tokens adds up: counts carry
      over from one file to the next. */
  lemma {:induction false} CountConcat(a: seq<string>, b: seq<string>, k: string)
    ensures Count(a + b, k) == Count(a, k) + Count(b, k)
    decreases |b|
  {
    if b != [] {
      var init := b[..|b| - 1];
      CountConcat(a, init, k);
      assert (a + b)[..|a + b| - 1] == a + init;
    } else {
      assert a + b == a;
    }
  }

  lemma NamesConcat(name: string -> string, a: seq<string>, b: seq<string>)
    ensures Names(name, a + b) == Names(name, a) + Names(name, b)
  {
  }

  /** Counts carry over from one file to the next: after one more file, a
      name's count is its count before plus its count in that file. */
  lemma CountsAccumulate(files: seq<string>, name: string -> string, f: nat, k: string)
    requires f < |files| && AllTokens(files[..f + 1]).Success?
    ensures AllTokens(files[..f]).Success? && FileTokens(files[f]).Success?
    ensures CountOf(Tally(Names(name, AllTokens(files[..f + 1]).value)), k)
         == CountOf(Tally(Names(name, AllTokens(files[..f]).value)), k)
            + Count(Names(name, FileTokens(files[f]).value), k)
  {
    AllTokensStep(files, f);
    var before := AllTokens(files[..f]).value;
    var more := FileTokens(files[f]).value;
    NamesConcat(name, before, more);
    TallyCounts(Names(name, before + more), k);
    TallyCounts(Names(name, before), k);
    CountConcat(Names(name, before), Names(name, more), k);
  }
}
