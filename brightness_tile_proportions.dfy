/** map_generator/brightness_tile_proportions.py: `read_from_csv` turns the
    tile distribution chart into a table from brightness level to tile name
    to proportion. The first CSV row labels the columns with inclusive
    `start-end` brightness ranges; every later row names a tile and gives one
    weight per range. Each range is expanded level by level (a later write to
    the same level and tile replaces an earlier one), then every level is
    divided by the sum of its weights.

    The CSV rows arrive already split into cells. Python's `int()` and
    `float()` are passed in as partial parse functions. */
module BrightnessTileProportions {
  import opened Wrappers
  import Text
  import opened MapSums

  /** Brightness level -> tile name -> weight (raw) or proportion. */
  type Table = map<int, map<string, real>>

  /** The exception that ends `read_from_csv`. */
  datatype ChartError =
    | MissingTileName               // `row[0]` of an empty data row: IndexError
    | MissingRangeLabel(column: nat) // more weights than range labels: IndexError
    | NotAFloat(cell: string)       // `float(cell)`: ValueError
    | NotARange(rangeLabel: string) // the label does not split into two parts: ValueError
    | NotAnInteger(part: string)    // `int(part)`: ValueError
    | ZeroWeightSum                 // a level whose weights add up to 0: ZeroDivisionError

  /** One cell of the chart: `weight` for `tile` at levels `start..end`. */
  datatype Write = Write(tile: string, start: int, end: int, weight: real)

  /** The range labels: the first row without its first cell. */
  function Header(rows: seq<seq<string>>): seq<string> {
    if rows == [] || rows[0] == [] then [] else rows[0][1..]
  }

  /** `start_str, end_str = rangeLabel.split('-')` and the two `int()` calls. */
  function ParseRange(rangeLabel: string, parseInt: string -> Option<int>): (r: Result<(int, int), ChartError>)
  {
    var parts := Text.Split(rangeLabel, '-');
    if |parts| != 2 then Failure(NotARange(rangeLabel))
    else
      match parseInt(parts[0])
      case None => Failure(NotAnInteger(parts[0]))
      case Some(start) =>
        match parseInt(parts[1])
        case None => Failure(NotAnInteger(parts[1]))
        case Some(end) => Success((start, end))
  }

  /** A label is accepted exactly when it has one '-' and both sides parse,
      and then the bounds come back in order. So a bare "5" and a label with
      a negative bound such as "-5-3" are refused. */
  lemma ParseRangeMeaning(rangeLabel: string, parseInt: string -> Option<int>)
    ensures ParseRange(rangeLabel, parseInt).Success? <==>
      && Text.Occurrences(rangeLabel, '-') == 1
      && parseInt(Text.Split(rangeLabel, '-')[0]).Some?
      && parseInt(Text.Split(rangeLabel, '-')[1]).Some?
    ensures ParseRange(rangeLabel, parseInt).Success? ==>
      ParseRange(rangeLabel, parseInt).value
        == (parseInt(Text.Split(rangeLabel, '-')[0]).value, parseInt(Text.Split(rangeLabel, '-')[1]).value)
  {
  }

  /** "s-e" written with two decimal numbers parses back to (s, e). */
  lemma ParseRangeRoundTrip(start: nat, end: nat, parseInt: string -> Option<int>)
    requires parseInt(Text.DecimalString(start)) == Some(start)
    requires parseInt(Text.DecimalString(end)) == Some(end)
    ensures ParseRange(Text.DecimalString(start) + "-" + Text.DecimalString(end), parseInt)
         == Success((start, end))
  {
    var a, b := Text.DecimalString(start), Text.DecimalString(end);
    assert '-' !in a && '-' !in b;
    Text.SplitJoin([a, b], '-');
    assert Text.Join([a, b], '-') == a + ['-'] + Text.Join([b], '-');
  }

  /** A label with a leading '-' is refused whenever `int("")` is. */
  lemma NegativeStartRefused(rangeLabel: string, parseInt: string -> Option<int>)
    requires |rangeLabel| > 0 && rangeLabel[0] == '-'
    requires parseInt("").None?
    ensures ParseRange(rangeLabel, parseInt).Failure?
  {
    var parts := Text.Split(rangeLabel, '-');
    var rest := Text.Split(rangeLabel[1..], '-');
    assert parts == [""] + rest;
  }

  /** The cell at weight column `i` of a data row for `tile`. */
  function CellWrite(header: seq<string>, tile: string, cells: seq<string>, i: nat,
                     parseInt: string -> Option<int>, parseFloat: string -> Option<real>)
    : Result<Write, ChartError>
    requires i < |cells|
  {
    if i >= |header| then Failure(MissingRangeLabel(i))
    else
      match parseFloat(cells[i])
      case None => Failure(NotAFloat(cells[i]))
      case Some(weight) =>
        match ParseRange(header[i], parseInt)
        case Failure(e) => Failure(e)
        case Success(bounds) => Success(Write(tile, bounds.0, bounds.1, weight))
  }
  /** A cell is written exactly when it has a range label that parses and
      its text is a float; the write carries the row's tile, the label's
      bounds and the float. */
  lemma CellWriteMeaning(header: seq<string>, tile: string, cells: seq<string>, i: nat,
                         parseInt: string -> Option<int>, parseFloat: string -> Option<real>)
    requires i < |cells|
    ensures var r := CellWrite(header, tile, cells, i, parseInt, parseFloat);
      && (r.Success? <==> i < |header| && parseFloat(cells[i]).Some? && ParseRange(header[i], parseInt).Success?)
      && (r.Success? ==> r.value == Write(tile, ParseRange(header[i], parseInt).value.0,
                                           ParseRange(header[i], parseInt).value.1, parseFloat(cells[i]).value))
      && (i >= |header| ==> r == Failure(MissingRangeLabel(i)))
  {
  }

  /** The writes of the first `n` weight cells of a row, or the first error. */
  function CellsWrites(header: seq<string>, tile: string, cells: seq<string>, n: nat,
                       parseInt: string -> Option<int>, parseFloat: string -> Option<real>)
    : Result<seq<Write>, ChartError>
    requires n <= |cells|
  {
    if n == 0 then Success([])
    else
      match CellsWrites(header, tile, cells, n - 1, parseInt, parseFloat)
      case Failure(e) => Failure(e)
      case Success(ws) =>
        match CellWrite(header, tile, cells, n - 1, parseInt, parseFloat)
        case Failure(e) => Failure(e)
        case Success(w) => Success(ws + [w])
  }

  /** The writes of one data row: its first cell names the tile. */
  function RowWrites(header: seq<string>, row: seq<string>,
                     parseInt: string -> Option<int>, parseFloat: string -> Option<real>)
    : Result<seq<Write>, ChartError>
  {
    if row == [] then Failure(MissingTileName)
    else CellsWrites(header, row[0], row[1..], |row| - 1, parseInt, parseFloat)
  }

  /** The writes of the first `k` CSV rows (the first one being the header),
      in the order the loops make them, or the first error. */
  function ChartWrites(rows: seq<seq<string>>, k: nat,
                       parseInt: string -> Option<int>, parseFloat: string -> Option<real>)
    : Result<seq<Write>, ChartError>
    requires k <= |rows|
  {
    if k <= 1 then Success([])
    else
      match ChartWrites(rows, k - 1, parseInt, parseFloat)
      case Failure(e) => Failure(e)
      case Success(ws) =>
        match RowWrites(Header(rows), rows[k - 1], parseInt, parseFloat)
        case Failure(e) => Failure(e)
        case Success(rw) => Success(ws + rw)
  }

  /** The integers from `start` to `end`, as `range(start, end + 1)`. */
  function Levels(start: int, end: int): (s: set<int>)
    ensures forall b :: b in s <==> start <= b <= end
    decreases end - start
  {
    if start > end then {} else Levels(start, end - 1) + {end}
  }

  /** `for brightness in range(start, end + 1)`, creating missing levels and
      setting the tile's weight at each. */
  function Place(p: Table, w: Write): Table {
    map b | b in p.Keys + Levels(w.start, w.end) ::
      if w.start <= b <= w.end then (if b in p then p[b] else map[])[w.tile := w.weight] else p[b]
  }

  /** One write adds exactly the levels of its range, sets its tile there,
      and leaves every other entry as it was. */
  lemma PlaceLookup(p: Table, w: Write, level: int, tile: string)
    ensures level in Place(p, w) <==> level in p || w.start <= level <= w.end
    ensures Lookup(Place(p, w), level, tile) ==
      if w.tile == tile && w.start <= level <= w.end then Some(w.weight) else Lookup(p, level, tile)
    ensures level in Place(p, w) && (level in p ==> |p[level]| > 0) ==> |Place(p, w)[level]| > 0
  {
    var q := Place(p, w);
    if w.start <= level <= w.end {
      assert w.tile in q[level];
    }
  }

  /** The table after the writes `ws`, in order, starting from `{}`. */
  function RawTable(ws: seq<Write>): Table
    decreases |ws|
  {
    if ws == [] then map[] else Place(RawTable(ws[..|ws| - 1]), ws[|ws| - 1])
  }

  lemma RawTableAppend(ws: seq<Write>, w: Write)
    ensures RawTable(ws + [w]) == Place(RawTable(ws), w)
  {
    assert (ws + [w])[..|ws|] == ws;
  }

  /** The weight a table holds for `tile` at `level`, if any. */
  function Lookup(p: Table, level: int, tile: string): Option<real> {
    if level in p && tile in p[level] then Some(p[level][tile]) else None
  }

  /** The weight of the last write in `ws` that covers `tile` at `level`. */
  function LastWrite(ws: seq<Write>, level: int, tile: string): Option<real>
    decreases |ws|
  {
    if ws == [] then None
    else
      var w := ws[|ws| - 1];
      if w.tile == tile && w.start <= level <= w.end then Some(w.weight)
      else LastWrite(ws[..|ws| - 1], level, tile)
  }

  /** Later writes win: the raw table holds, for each level and tile, the
      weight of the last cell whose range covers that level. A level is
      present exactly when some range (of any tile) covers it, and no level
      is present with no tile; a range whose start exceeds its end writes
      nothing. */
  lemma {:induction false} RawTableIsLastWrite(ws: seq<Write>, level: int, tile: string)
    ensures Lookup(RawTable(ws), level, tile) == LastWrite(ws, level, tile)
    ensures level in RawTable(ws) <==> exists k :: 0 <= k < |ws| && ws[k].start <= level <= ws[k].end
    ensures level in RawTable(ws) ==> |RawTable(ws)[level]| > 0
    decreases |ws|
  {
    if ws != [] {
      var init := ws[..|ws| - 1];
      var w := ws[|ws| - 1];
      RawTableIsLastWrite(init, level, tile);
      PlaceLookup(RawTable(init), w, level, tile);
      if exists k :: 0 <= k < |init| && init[k].start <= level <= init[k].end {
        var k :| 0 <= k < |init| && init[k].start <= level <= init[k].end;
        assert ws[k] == init[k];
      }
      if exists k :: 0 <= k < |ws| && ws[k].start <= level <= ws[k].end {
        var k :| 0 <= k < |ws| && ws[k].start <= level <= ws[k].end;
        if k < |init| {
          assert init[k] == ws[k];
        }
      }
    }
  }

  /** Errors end a row: once its first `i` cells fail, so do all longer
      prefixes, with the same error; and a successful read of `n` cells
      extends every shorter successful read. */
  lemma {:induction false} CellsWritesPrefix(header: seq<string>, tile: string, cells: seq<string>, i: nat, n: nat,
                                             parseInt: string -> Option<int>, parseFloat: string -> Option<real>)
    requires i <= n <= |cells|
    ensures CellsWrites(header, tile, cells, i, parseInt, parseFloat).Failure? ==>
      CellsWrites(header, tile, cells, n, parseInt, parseFloat) == CellsWrites(header, tile, cells, i, parseInt, parseFloat)
    ensures CellsWrites(header, tile, cells, n, parseInt, parseFloat).Success? ==>
      && CellsWrites(header, tile, cells, i, parseInt, parseFloat).Success?
      && CellsWrites(header, tile, cells, i, parseInt, parseFloat).value <= CellsWrites(header, tile, cells, n, parseInt, parseFloat).value
    decreases n
  {
    if i < n {
      CellsWritesPrefix(header, tile, cells, i, n - 1, parseInt, parseFloat);
    }
  }

  lemma {:induction false} CellsWritesLength(header: seq<string>, tile: string, cells: seq<string>, n: nat,
                                             parseInt: string -> Option<int>, parseFloat: string -> Option<real>)
    requires n <= |cells|
    ensures CellsWrites(header, tile, cells, n, parseInt, parseFloat).Success? ==>
      |CellsWrites(header, tile, cells, n, parseInt, parseFloat).value| == n
    decreases n
  {
    if n > 0 {
      CellsWritesLength(header, tile, cells, n - 1, parseInt, parseFloat);
    }
  }

  /** What `read_from_csv` returns, or the exception it raises. */
  ghost function ReadChart(rows: seq<seq<string>>, parseInt: string -> Option<int>, parseFloat: string -> Option<real>)
    : Result<Table, ChartError>
  {
    match ChartTable(rows, |rows|, parseInt, parseFloat)
    case Failure(e) => Failure(e)
    case Success(raw) => Normalise(raw)
  }

  /** The table the first `k` CSV rows build before normalisation, or the
      first error they meet. */
  ghost function ChartTable(rows: seq<seq<string>>, k: nat, parseInt: string -> Option<int>, parseFloat: string -> Option<real>)
    : Result<Table, ChartError>
    requires k <= |rows|
  {
    match ChartWrites(rows, k, parseInt, parseFloat)
    case Failure(e) => Failure(e)
    case Success(ws) => Success(RawTable(ws))
  }

  /** The normalisation loop: every weight divided by its level's sum.
      Only a level holding tiles can fail here: the tables the chart read
      builds have no empty level (`RawTableIsLastWrite`), so an empty
      level's sum of 0 never reaches this division. */
  ghost function Normalise(raw: Table): Result<Table, ChartError> {
    if exists level :: level in raw && SumReal(raw[level]) == 0.0 then Failure(ZeroWeightSum)
    else Success(map level | level in raw :: DivideAll(raw[level], SumReal(raw[level])))
  }

  /** Normalising keeps every level and every tile, makes each value its
      raw weight divided by the level's raw sum, and so makes every level
      add up to 1. */
  lemma NormaliseMeaning(raw: Table)
    ensures Normalise(raw).Success? ==>
      var p := Normalise(raw).value;
      && p.Keys == raw.Keys
      && forall level :: level in p ==> LevelNormalised(raw[level], p[level])
  {
    if Normalise(raw).Success? {
      var p := Normalise(raw).value;
      forall level | level in p
        ensures LevelNormalised(raw[level], p[level])
      {
        assert p[level] == DivideAll(raw[level], SumReal(raw[level]));
        NormaliseLevel(raw[level]);
      }
    }
  }

  /** `p` holds the tiles of `m`, each with its share of the sum of `m`, so
      its values add up to 1. */
  ghost predicate LevelNormalised(m: map<string, real>, p: map<string, real>) {
    && p.Keys == m.Keys
    && SumReal(p) == 1.0
    && forall tile :: tile in p ==> p[tile] * SumReal(m) == m[tile]
  }

  lemma DivideBySelf(x: real)
    requires x != 0.0
    ensures x / x == 1.0
  {
  }

  lemma NormaliseLevel(m: map<string, real>)
    requires SumReal(m) != 0.0
    ensures DivideAll(m, SumReal(m)).Keys == m.Keys
    ensures SumReal(DivideAll(m, SumReal(m))) == 1.0
    ensures forall tile :: tile in m ==> DivideAll(m, SumReal(m))[tile] * SumReal(m) == m[tile]
  {
    SumRealDivideAll(m, SumReal(m));
    DivideBySelf(SumReal(m));
  }

  /** A level that only one tile reaches, with a nonzero weight, gets
      proportion 1 for that tile. */
  lemma SingleTileLevel(raw: Table, level: int, tile: string)
    requires level in raw && raw[level].Keys == {tile} && raw[level][tile] != 0.0
    requires Normalise(raw).Success?
    ensures Normalise(raw).value[level] == map[tile := 1.0]
  {
    var m := raw[level];
    SumRealRemove(m, tile);
    assert m - {tile} == map[];
    assert SumReal(m) == m[tile];
    var d := DivideAll(m, SumReal(m));
    assert d.Keys == {tile};
    assert d[tile] == m[tile] / m[tile] == 1.0;
    assert d == map[tile := 1.0];
  }

  /** A row that succeeds writes each of its cells. */
  lemma RowCell(header: seq<string>, tile: string, cells: seq<string>, i: nat,
                parseInt: string -> Option<int>, parseFloat: string -> Option<real>)
    requires i < |cells|
    requires CellsWrites(header, tile, cells, |cells|, parseInt, parseFloat).Success?
    ensures CellWrite(header, tile, cells, i, parseInt, parseFloat).Success?
    ensures CellWrite(header, tile, cells, i, parseInt, parseFloat).value
            in CellsWrites(header, tile, cells, |cells|, parseInt, parseFloat).value
  {
    CellsWritesPrefix(header, tile, cells, i + 1, |cells|, parseInt, parseFloat);
    CellsWritesLength(header, tile, cells, i, parseInt, parseFloat);
    var upTo := CellsWrites(header, tile, cells, i + 1, parseInt, parseFloat);
    assert upTo.value[i] == CellWrite(header, tile, cells, i, parseInt, parseFloat).value;
  }

  /** In a successful read every data row succeeds, and its writes are
      among the chart's. */
  lemma {:induction false} RowInChart(rows: seq<seq<string>>, j: nat, m: nat,
                                      parseInt: string -> Option<int>, parseFloat: string -> Option<real>)
    requires 1 <= j < m <= |rows|
    requires ChartWrites(rows, m, parseInt, parseFloat).Success?
    ensures RowWrites(Header(rows), rows[j], parseInt, parseFloat).Success?
    ensures forall w :: w in RowWrites(Header(rows), rows[j], parseInt, parseFloat).value ==>
      w in ChartWrites(rows, m, parseInt, parseFloat).value
    decreases m
  {
    var ws := ChartWrites(rows, m, parseInt, parseFloat).value;
    var before := ChartWrites(rows, m - 1, parseInt, parseFloat);
    var last := RowWrites(Header(rows), rows[m - 1], parseInt, parseFloat);
    assert before.Success? && last.Success? && ws == before.value + last.value;
    if m - 1 > j {
      RowInChart(rows, j, m - 1, parseInt, parseFloat);
    }
  }

  /** Every weight cell of a successful read was parsed: its row names a
      tile, its column has a range label that parses, its text is a float,
      and its write is among the writes the table is built from. */
  lemma ChartCell(rows: seq<seq<string>>, j: nat, i: nat,
                  parseInt: string -> Option<int>, parseFloat: string -> Option<real>)
    requires 1 <= j < |rows|
    requires ChartWrites(rows, |rows|, parseInt, parseFloat).Success?
    ensures rows[j] != []
    ensures i + 1 < |rows[j]| ==>
      var c := CellWrite(Header(rows), rows[j][0], rows[j][1..], i, parseInt, parseFloat);
      && c.Success?
      && c.value in ChartWrites(rows, |rows|, parseInt, parseFloat).value
  {
    RowInChart(rows, j, |rows|, parseInt, parseFloat);
    if i + 1 < |rows[j]| {
      RowCell(Header(rows), rows[j][0], rows[j][1..], i, parseInt, parseFloat);
    }
  }

  /** A data row with more weights than there are range labels, an empty
      data row, or a used range label that does not have exactly one '-', makes
      the whole read fail. */
  lemma MalformedRowFails(rows: seq<seq<string>>, j: nat,
                          parseInt: string -> Option<int>, parseFloat: string -> Option<real>)
    requires 1 <= j < |rows|
    requires
      || rows[j] == []
      || |rows[j]| - 1 > |Header(rows)|
      || exists i :: 0 <= i < |rows[j]| - 1 && i < |Header(rows)| && Text.Occurrences(Header(rows)[i], '-') != 1
    ensures ReadChart(rows, parseInt, parseFloat).Failure?
  {
    if ChartWrites(rows, |rows|, parseInt, parseFloat).Success? {
      ChartCell(rows, j, |Header(rows)|, parseInt, parseFloat);
      if exists i :: 0 <= i < |rows[j]| - 1 && i < |Header(rows)| && Text.Occurrences(Header(rows)[i], '-') != 1 {
        var i :| 0 <= i < |rows[j]| - 1 && i < |Header(rows)| && Text.Occurrences(Header(rows)[i], '-') != 1;
        ChartCell(rows, j, i, parseInt, parseFloat);
        ParseRangeMeaning(Header(rows)[i], parseInt);
      }
      assert false;
    }
  }

  /** The raw table after a successful read: for a data row with tile `t`
      and range `s-e` in some column, every level from `s` to `e` holds a
      weight for `t`, the weight of the last cell (in reading order) whose
      range covers that level for `t`. */
  lemma CellWeightReachesEveryLevel(rows: seq<seq<string>>, j: nat, i: nat, level: int,
                                    parseInt: string -> Option<int>, parseFloat: string -> Option<real>)
    requires 1 <= j < |rows| && i + 1 < |rows[j]| && i < |Header(rows)|
    requires ChartWrites(rows, |rows|, parseInt, parseFloat).Success?
    requires ParseRange(Header(rows)[i], parseInt).Success?
    requires ParseRange(Header(rows)[i], parseInt).value.0 <= level <= ParseRange(Header(rows)[i], parseInt).value.1
    ensures var ws := ChartWrites(rows, |rows|, parseInt, parseFloat).value;
      && level in RawTable(ws) && rows[j][0] in RawTable(ws)[level]
      && Some(RawTable(ws)[level][rows[j][0]]) == LastWrite(ws, level, rows[j][0])
  {
    var ws := ChartWrites(rows, |rows|, parseInt, parseFloat).value;
    ChartCell(rows, j, i, parseInt, parseFloat);
    var c := CellWrite(Header(rows), rows[j][0], rows[j][1..], i, parseInt, parseFloat).value;
    var k :| 0 <= k < |ws| && ws[k] == c;
    LastWriteFound(ws, k, level, rows[j][0]);
    RawTableIsLastWrite(ws, level, rows[j][0]);
  }

  lemma {:induction false} LastWriteFound(ws: seq<Write>, k: nat, level: int, tile: string)
    requires k < |ws| && ws[k].tile == tile && ws[k].start <= level <= ws[k].end
    ensures LastWrite(ws, level, tile).Some?
    decreases |ws|
  {
    if k < |ws| - 1 {
      LastWriteFound(ws[..|ws| - 1], k, level, tile);
    }
  }

  /** The body of the level loop: create the level if it is missing, then
      set the tile's weight there. */
  method SetWeight(proportions0: Table, brightness: int, tile: string, weight: real) returns (proportions: Table)
    ensures proportions == proportions0[brightness :=
      (if brightness in proportions0 then proportions0[brightness] else map[])[tile := weight]]
  {
    proportions := proportions0;
    if brightness !in proportions {
      proportions := proportions[brightness := map[]];
    }
    proportions := proportions[brightness := proportions[brightness][tile := weight]];
  }

  /** The inner `for brightness in range(start, end + 1)` loop. */
  method WriteRange(proportions0: Table, tile: string, start: int, end: int, weight: real)
    returns (proportions: Table)
    ensures proportions == Place(proportions0, Write(tile, start, end, weight))
  {
    proportions := proportions0;
    var brightness := start;
    while brightness < end + 1
      invariant start <= brightness && (brightness <= end + 1 || brightness == start)
      invariant proportions == Place(proportions0, Write(tile, start, brightness - 1, weight))
      decreases end + 1 - brightness
    {
      proportions := SetWeight(proportions, brightness, tile, weight);
      PlaceStep(proportions0, tile, start, brightness, weight);
      brightness := brightness + 1;
    }
    if start > end {
      PlaceEmpty(proportions0, Write(tile, start, start - 1, weight));
      PlaceEmpty(proportions0, Write(tile, start, end, weight));
    }
  }

  /** A range whose start exceeds its end writes nothing. */
  lemma PlaceEmpty(p: Table, w: Write)
    requires w.start > w.end
    ensures Place(p, w) == p
  {
  }

  /** Writing one more level of the range. */
  lemma PlaceStep(p: Table, tile: string, start: int, level: int, weight: real)
    requires start <= level
    ensures var q := Place(p, Write(tile, start, level - 1, weight));
      Place(p, Write(tile, start, level, weight))
        == q[level := (if level in q then q[level] else map[])[tile := weight]]
  {
    var q := Place(p, Write(tile, start, level - 1, weight));
    var r := Place(p, Write(tile, start, level, weight));
    assert level in q <==> level in p;
    assert r.Keys == q.Keys + {level};
  }

  /** The body of the column loop for weight column `i`: look up its range
      label, parse the weight and the label, and write the range. */
  method ReadCell(proportions0: Table, header: seq<string>, tile: string, cells: seq<string>, i: nat,
                  parseInt: string -> Option<int>, parseFloat: string -> Option<real>)
    returns (r: Result<Table, ChartError>)
    requires i < |cells|
    ensures CellWrite(header, tile, cells, i, parseInt, parseFloat).Failure? ==>
      r == Failure(CellWrite(header, tile, cells, i, parseInt, parseFloat).error)
    ensures CellWrite(header, tile, cells, i, parseInt, parseFloat).Success? ==>
      r == Success(Place(proportions0, CellWrite(header, tile, cells, i, parseInt, parseFloat).value))
  {
    if i >= |header| {
      return Failure(MissingRangeLabel(i));
    }
    var brightnessRangeStr := header[i];
    var brightnessProportion := parseFloat(cells[i]);
    if brightnessProportion.None? {
      return Failure(NotAFloat(cells[i]));
    }
    var parts := Text.Split(brightnessRangeStr, '-');
    if |parts| != 2 {
      return Failure(NotARange(brightnessRangeStr));
    }
    var start := parseInt(parts[0]);
    if start.None? {
      return Failure(NotAnInteger(parts[0]));
    }
    var end := parseInt(parts[1]);
    if end.None? {
      return Failure(NotAnInteger(parts[1]));
    }
    var proportions := WriteRange(proportions0, tile, start.value, end.value, brightnessProportion.value);
    return Success(proportions);
  }

  lemma CellsWritesStep(header: seq<string>, tile: string, cells: seq<string>, i: nat,
                        parseInt: string -> Option<int>, parseFloat: string -> Option<real>)
    requires i < |cells|
    requires CellsWrites(header, tile, cells, i, parseInt, parseFloat).Success?
    ensures CellWrite(header, tile, cells, i, parseInt, parseFloat).Failure? ==>
      CellsWrites(header, tile, cells, i + 1, parseInt, parseFloat)
        == Failure(CellWrite(header, tile, cells, i, parseInt, parseFloat).error)
    ensures CellWrite(header, tile, cells, i, parseInt, parseFloat).Success? ==>
      CellsWrites(header, tile, cells, i + 1, parseInt, parseFloat)
        == Success(CellsWrites(header, tile, cells, i, parseInt, parseFloat).value
                   + [CellWrite(header, tile, cells, i, parseInt, parseFloat).value])
  {
  }

  /** The column loop over one data row's weights. */
  method ReadRow(proportions0: Table, header: seq<string>, tile: string, cells: seq<string>,
                 parseInt: string -> Option<int>, parseFloat: string -> Option<real>,
                 ghost done: seq<Write>)
    returns (r: Result<Table, ChartError>)
    requires proportions0 == RawTable(done)
    ensures CellsWrites(header, tile, cells, |cells|, parseInt, parseFloat).Failure? ==>
      r == Failure(CellsWrites(header, tile, cells, |cells|, parseInt, parseFloat).error)
    ensures CellsWrites(header, tile, cells, |cells|, parseInt, parseFloat).Success? ==>
      r == Success(RawTable(done + CellsWrites(header, tile, cells, |cells|, parseInt, parseFloat).value))
  {
    var proportions := proportions0;
    assert done + [] == done;
    for i := 0 to |cells|
      invariant CellsWrites(header, tile, cells, i, parseInt, parseFloat).Success?
      invariant proportions == RawTable(done + CellsWrites(header, tile, cells, i, parseInt, parseFloat).value)
    {
      ghost var sofar := CellsWrites(header, tile, cells, i, parseInt, parseFloat).value;
      CellsWritesStep(header, tile, cells, i, parseInt, parseFloat);
      var next := ReadCell(proportions, header, tile, cells, i, parseInt, parseFloat);
      if next.Failure? {
        CellsWritesPrefix(header, tile, cells, i + 1, |cells|, parseInt, parseFloat);
        return Failure(next.error);
      }
      ghost var w := CellWrite(header, tile, cells, i, parseInt, parseFloat).value;
      RawTableAppend(done + sofar, w);
      assert done + (sofar + [w]) == done + sofar + [w];
      proportions := next.value;
    }
    return Success(proportions);
  }

  /** One more data row: its writes follow those of the rows before it. */
  lemma ChartWritesStep(rows: seq<seq<string>>, k: nat, parseInt: string -> Option<int>, parseFloat: string -> Option<real>)
    requires 1 <= k < |rows|
    requires ChartWrites(rows, k, parseInt, parseFloat).Success?
    ensures ChartWrites(rows, k + 1, parseInt, parseFloat) ==
      match RowWrites(Header(rows), rows[k], parseInt, parseFloat)
      case Failure(e) => Failure(e)
      case Success(rw) => Success(ChartWrites(rows, k, parseInt, parseFloat).value + rw)
  {
  }

  /** Data row `k` of `read_from_csv`: its tile name, then its cells. */
  method ReadDataRow(rows: seq<seq<string>>, k: nat, proportions: Table, header: seq<string>,
                     parseInt: string -> Option<int>, parseFloat: string -> Option<real>)
    returns (r: Result<Table, ChartError>)
    requires 1 <= k < |rows| && header == Header(rows)
    requires ChartTable(rows, k, parseInt, parseFloat) == Success(proportions)
    ensures r == ChartTable(rows, k + 1, parseInt, parseFloat)
  {
    ChartWritesStep(rows, k, parseInt, parseFloat);
    var row := rows[k];
    if row == [] {
      return Failure(MissingTileName);
    }
    var tile := row[0];
    var brightnessProportions := row[1..];
    r := ReadRow(proportions, header, tile, brightnessProportions, parseInt, parseFloat,
                 ChartWrites(rows, k, parseInt, parseFloat).value);
  }

  /** The row loop of `read_from_csv`: the first row gives the range
      labels, every other row its tile's weights. */
  method ReadRows(rows: seq<seq<string>>, parseInt: string -> Option<int>, parseFloat: string -> Option<real>)
    returns (r: Result<Table, ChartError>)
    ensures r == ChartTable(rows, |rows|, parseInt, parseFloat)
  {
    var proportions: Table := map[];
    var rowCount := 0;
    var brightnessRanges: seq<string> := [];
    for k := 0 to |rows|
      invariant rowCount == k
      invariant k >= 1 ==> brightnessRanges == Header(rows)
      invariant ChartTable(rows, k, parseInt, parseFloat) == Success(proportions)
    {
      var row := rows[k];
      rowCount := rowCount + 1;
      if rowCount == 1 {
        brightnessRanges := if row == [] then [] else row[1..];
        ChartTableStart(rows, parseInt, parseFloat);
      } else {
        var next := ReadDataRow(rows, k, proportions, brightnessRanges, parseInt, parseFloat);
        if next.Failure? {
          ChartTableFailure(rows, k + 1, |rows|, parseInt, parseFloat);
          return Failure(next.error);
        }
        proportions := next.value;
      }
    }
    r := Success(proportions);
  }

  /** The header row writes nothing. */
  lemma ChartTableStart(rows: seq<seq<string>>, parseInt: string -> Option<int>, parseFloat: string -> Option<real>)
    requires 1 <= |rows|
    ensures ChartTable(rows, 1, parseInt, parseFloat) == Success(map[])
  {
  }

  /** Errors end the whole read: once the first `k` rows fail, every longer
      prefix fails with the same error. */
  lemma {:induction false} ChartTableFailure(rows: seq<seq<string>>, k: nat, m: nat,
                                             parseInt: string -> Option<int>, parseFloat: string -> Option<real>)
    requires k <= m <= |rows|
    requires ChartTable(rows, k, parseInt, parseFloat).Failure?
    ensures ChartTable(rows, m, parseInt, parseFloat) == ChartTable(rows, k, parseInt, parseFloat)
    decreases m
  {
    if m > k {
      ChartTableFailure(rows, k, m - 1, parseInt, parseFloat);
    }
  }

  /** `read_from_csv`: the row loop, then the normalisation. */
  method ReadFromCsv(rows: seq<seq<string>>, parseInt: string -> Option<int>, parseFloat: string -> Option<real>)
    returns (r: Result<Table, ChartError>)
    ensures r == ReadChart(rows, parseInt, parseFloat)
  {
    var raw := ReadRows(rows, parseInt, parseFloat);
    if raw.Failure? {
      return Failure(raw.error);
    }
    r := NormaliseLevels(raw.value);
  }

  /** `sum(tile_proportions.values())`. */
  method WeightSum(tileProportions: map<string, real>) returns (s: real)
    ensures s == SumReal(tileProportions)
  {
    s := 0.0;
    var rest := tileProportions.Keys;
    assert Restrict(tileProportions, rest) == tileProportions;
    while rest != {}
      invariant rest <= tileProportions.Keys
      invariant s + SumReal(Restrict(tileProportions, rest)) == SumReal(tileProportions)
      decreases |rest|
    {
      var tile :| tile in rest;
      RestrictRemove(tileProportions, rest, tile);
      s := s + tileProportions[tile];
      rest := rest - {tile};
    }
    assert Restrict(tileProportions, {}) == map[];
  }

  function Restrict(m: map<string, real>, keys: set<string>): (r: map<string, real>)
    requires keys <= m.Keys
  {
    map k | k in keys :: m[k]
  }

  lemma RestrictRemove(m: map<string, real>, keys: set<string>, k: string)
    requires keys <= m.Keys && k in keys
    ensures SumReal(Restrict(m, keys)) == m[k] + SumReal(Restrict(m, keys - {k}))
  {
    SumRealRemove(Restrict(m, keys), k);
    assert Restrict(m, keys) - {k} == Restrict(m, keys - {k});
  }

  /** The inner loop `proportions[brightness][tile] = proportion / sum`. */
  method DivideLevel(tileProportions: map<string, real>, tileProportionSum: real)
    returns (divided: map<string, real>)
    requires tileProportionSum != 0.0
    ensures divided == DivideAll(tileProportions, tileProportionSum)
  {
    divided := tileProportions;
    var rest := tileProportions.Keys;
    while rest != {}
      invariant rest <= tileProportions.Keys
      invariant divided.Keys == tileProportions.Keys
      invariant forall tile :: tile in tileProportions && tile !in rest ==>
        divided[tile] == tileProportions[tile] / tileProportionSum
      invariant forall tile :: tile in rest ==> divided[tile] == tileProportions[tile]
      decreases |rest|
    {
      var tile :| tile in rest;
      divided := divided[tile := divided[tile] / tileProportionSum];
      rest := rest - {tile};
    }
  }

  /** The normalisation loop over the levels (in some order), failing at
      the first level whose weights add up to 0. */
  method NormaliseLevels(raw: Table) returns (r: Result<Table, ChartError>)
    ensures r == Normalise(raw)
  {
    var proportions := raw;
    var rest := raw.Keys;
    while rest != {}
      invariant rest <= raw.Keys
      invariant proportions.Keys == raw.Keys
      invariant forall level :: level in rest ==> proportions[level] == raw[level]
      invariant forall level :: level in raw && level !in rest ==> Normalised(raw, proportions, level)
      decreases |rest|
    {
      SomeLevel(rest);
      var brightness :| brightness in rest;
      var tileProportionSum := WeightSum(proportions[brightness]);
      if tileProportionSum == 0.0 {
        assert brightness in raw && SumReal(raw[brightness]) == 0.0;
        return Failure(ZeroWeightSum);
      }
      var divided := DivideLevel(proportions[brightness], tileProportionSum);
      proportions := proportions[brightness := divided];
      rest := rest - {brightness};
    }
    NormalisedAll(raw, proportions);
    return Success(proportions);
  }

  lemma SomeLevel(levels: set<int>)
    requires levels != {}
    ensures exists level :: level in levels
  {
    if forall level :: level !in levels {
      assert false;
    }
  }

  ghost predicate Normalised(raw: Table, p: Table, level: int)
    requires level in raw && level in p
  {
    SumReal(raw[level]) != 0.0 && p[level] == DivideAll(raw[level], SumReal(raw[level]))
  }

  lemma NormalisedAll(raw: Table, p: Table)
    requires p.Keys == raw.Keys
    requires forall level :: level in raw ==> Normalised(raw, p, level)
    ensures Normalise(raw) == Success(p)
  {
    forall level | level in raw
      ensures SumReal(raw[level]) != 0.0 && p[level] == DivideAll(raw[level], SumReal(raw[level]))
    {
      assert Normalised(raw, p, level);
    }
    var q := map level | level in raw :: DivideAll(raw[level], SumReal(raw[level]));
    assert q == p;
  }
}
