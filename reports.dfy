/** The summary lines the counting scripts print after tallying: one line
    per key in sorted order, then the total. Column widths and other print
    formatting are not modelled. */
module Reports {
  import opened Wrappers
  import Text
  import Sorting

  datatype ReportLine = Entry(name: string, count: nat) | TotalLine(total: nat)

  /** `lines` lists every key of `counts` with its count and ends with the
      total. */
  ghost predicate IsReport(lines: seq<ReportLine>, counts: map<string, nat>, total: nat) {
    && |lines| == |counts| + 1
    && lines[|lines| - 1] == TotalLine(total)
    && (forall i :: 0 <= i < |lines| - 1 ==>
          lines[i].Entry? && lines[i].name in counts && lines[i].count == counts[lines[i].name])
    && (forall k :: k in counts ==> exists i :: 0 <= i < |lines| - 1 && lines[i] == Entry(k, counts[k]))
  }

  function Entries(keys: seq<string>, counts: map<string, nat>): (lines: seq<ReportLine>)
    requires forall k :: k in keys ==> k in counts
    ensures |lines| == |keys|
    ensures forall i :: 0 <= i < |keys| ==> lines[i] == Entry(keys[i], counts[keys[i]])
  {
    seq(|keys|, i requires 0 <= i < |keys| => Entry(keys[i], counts[keys[i]]))
  }

  /** `for tile_name in sorted(tile_count.keys()): print(...)`, then the total. */
  method NameOrderReport(counts: map<string, nat>, total: nat) returns (lines: seq<ReportLine>)
    ensures IsReport(lines, counts, total)
    ensures forall i, j :: 0 <= i < j < |lines| - 1 ==>
              Text.LexLe(lines[i].name, lines[j].name) && lines[i].name != lines[j].name
  {
    var keys := Sorting.SortedKeys(counts);
    lines := Entries(keys, counts) + [TotalLine(total)];
    EntriesReport(keys, counts, total);
  }

  /** The sort key `int(name)` once every name is known to parse. */
  function IntKey(parseInt: string -> Option<int>, name: string): int {
    match parseInt(name)
    case Some(n) => n
    case None => 0
  }

  /** `sorted(tile_count.keys(), key=int)`, then the total; `int` raising on
      any key makes the whole report fail. Keys with the same integer value
      (such as "7" and "07") come out in some order. */
  method IntOrderReport(counts: map<string, nat>, total: nat, parseInt: string -> Option<int>)
    returns (r: Result<seq<ReportLine>, string>)
    ensures r.Failure? <==> exists k :: k in counts && parseInt(k).None?
    ensures r.Failure? ==> r.error in counts && parseInt(r.error).None?
    ensures r.Success? ==> IsReport(r.value, counts, total)
    ensures r.Success? ==> forall i, j :: 0 <= i < j < |r.value| - 1 ==>
              IntKey(parseInt, r.value[i].name) <= IntKey(parseInt, r.value[j].name) && r.value[i].name != r.value[j].name
  {
    var keys := Sorting.SortedKeys(counts);
    var unparsable := FindUnparsable(keys, parseInt);
    if unparsable.Some? {
      return Failure(unparsable.value);
    }
    var le := (a: string, b: string) => IntKey(parseInt, a) <= IntKey(parseInt, b);
    assert Sorting.TotalPreorder(le);
    var sorted := Sorting.SortBy(keys, le);
    SameElements(keys, sorted);
    DistinctFromMultiset(keys, sorted);
    var lines := Entries(sorted, counts) + [TotalLine(total)];
    EntriesReport(sorted, counts, total);
    return Success(lines);
  }

  /** A key `int` refuses, if there is one. */
  method FindUnparsable(keys: seq<string>, parseInt: string -> Option<int>) returns (r: Option<string>)
    ensures r.Some? ==> r.value in keys && parseInt(r.value).None?
    ensures r.None? ==> forall k :: k in keys ==> parseInt(k).Some?
  {
    for i := 0 to |keys|
      invariant forall j :: 0 <= j < i ==> parseInt(keys[j]).Some?
    {
      if parseInt(keys[i]).None? {
        return Some(keys[i]);
      }
    }
    return None;
  }

  lemma EntriesReport(keys: seq<string>, counts: map<string, nat>, total: nat)
    requires forall k :: k in keys <==> k in counts
    requires |keys| == |counts|
    ensures IsReport(Entries(keys, counts) + [TotalLine(total)], counts, total)
  {
    var lines := Entries(keys, counts) + [TotalLine(total)];
    forall k | k in counts ensures exists i :: 0 <= i < |lines| - 1 && lines[i] == Entry(k, counts[k]) {
      var i :| 0 <= i < |keys| && keys[i] == k;
      assert lines[i] == Entry(k, counts[k]);
    }
  }

  /** A permutation has the same elements. */
  lemma SameElements(s: seq<string>, t: seq<string>)
    requires multiset(s) == multiset(t)
    ensures forall k :: k in s <==> k in t
  {
    forall k ensures k in s <==> k in t {
      assert k in s <==> k in multiset(s);
      assert k in t <==> k in multiset(t);
    }
  }

  /** A permutation of a sequence without repeats has none either. */
  lemma DistinctFromMultiset(s: seq<string>, t: seq<string>)
    requires multiset(s) == multiset(t)
    requires forall i, j :: 0 <= i < j < |s| ==> s[i] != s[j]
    ensures forall i, j :: 0 <= i < j < |t| ==> t[i] != t[j]
  {
    Sorting.DistinctMultiset(s);
    forall i, j | 0 <= i < j < |t| ensures t[i] != t[j] {
      if t[i] == t[j] {
        Sorting.TwoCopies(t, i, j);
        assert false;
      }
    }
  }
}
