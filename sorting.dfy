/** Python's `sorted(...)` as an insertion sort over any total preorder, and
    the dictionary-key listing the report loops iterate over. */
module Sorting {
  import Text

  ghost predicate TotalPreorder<T(!new)>(le: (T, T) -> bool) {
    && (forall a, b :: le(a, b) || le(b, a))
    && (forall a, b, c :: le(a, b) && le(b, c) ==> le(a, c))
  }

  ghost predicate Sorted<T>(le: (T, T) -> bool, s: seq<T>) {
    forall i, j :: 0 <= i < j < |s| ==> le(s[i], s[j])
  }

  function Insert<T(!new)>(x: T, s: seq<T>, le: (T, T) -> bool): (r: seq<T>)
    requires TotalPreorder(le) && Sorted(le, s)
    ensures Sorted(le, r)
    ensures multiset(r) == multiset(s) + multiset{x}
    ensures forall y :: y in r <==> y == x || y in s
    decreases |s|
  {
    if s == [] then [x]
    else if le(x, s[0]) then [x] + s
    else
      var rest := Insert(x, s[1..], le);
      assert s == [s[0]] + s[1..];
      assert forall y :: y in rest ==> le(s[0], y);
      [s[0]] + rest
  }

  /** A sorted permutation of `s`. */
  function SortBy<T(!new)>(s: seq<T>, le: (T, T) -> bool): (r: seq<T>)
    requires TotalPreorder(le)
    ensures Sorted(le, r)
    ensures multiset(r) == multiset(s)
    decreases |s|
  {
    if s == [] then []
    else
      assert s == [s[0]] + s[1..];
      Insert(s[0], SortBy(s[1..], le), le)
  }

  lemma LexLeIsTotalPreorder()
    ensures TotalPreorder(Text.LexLe)
  {
    forall a, b ensures Text.LexLe(a, b) || Text.LexLe(b, a) {
      Text.LexLeTotal(a, b);
    }
    forall a, b, c | Text.LexLe(a, b) && Text.LexLe(b, c) ensures Text.LexLe(a, c) {
      Text.LexLeTransitive(a, b, c);
    }
  }

  /** Strictly ascending in code-point order: what `sorted` gives for the
      distinct keys of a dictionary. */
  ghost predicate StrictlyAscending(s: seq<string>) {
    forall i, j :: 0 <= i < j < |s| ==> Text.LexLe(s[i], s[j]) && s[i] != s[j]
  }

  /** `sorted(d.keys())` for a dictionary with string keys. */
  method SortedKeys<V>(m: map<string, V>) returns (ks: seq<string>)
    ensures forall k :: k in ks <==> k in m
    ensures |ks| == |m|
    ensures StrictlyAscending(ks)
  {
    var listed := ListKeys(m);
    LexLeIsTotalPreorder();
    ks := SortBy(listed, Text.LexLe);
    SortedKeysOf(listed, ks);
  }

  /** The keys of a dictionary, each once, in the order they are drawn. */
  method ListKeys<V>(m: map<string, V>) returns (listed: seq<string>)
    ensures forall k :: k in listed <==> k in m
    ensures forall i, j :: 0 <= i < j < |listed| ==> listed[i] != listed[j]
    ensures |listed| == |m|
  {
    listed := [];
    var rest := m.Keys;
    while rest != {}
      invariant rest <= m.Keys
      invariant forall k :: k in listed <==> k in m && k !in rest
      invariant forall i, j :: 0 <= i < j < |listed| ==> listed[i] != listed[j]
      invariant |listed| + |rest| == |m.Keys|
      decreases |rest|
    {
      var k :| k in rest;
      listed := listed + [k];
      rest := rest - {k};
    }
    assert |m.Keys| == |m|;
  }

  /** A sorted permutation of distinct keys holds the same keys, strictly
      ascending. */
  lemma SortedKeysOf(listed: seq<string>, ks: seq<string>)
    requires forall i, j :: 0 <= i < j < |listed| ==> listed[i] != listed[j]
    requires Sorted(Text.LexLe, ks) && multiset(ks) == multiset(listed)
    ensures forall k :: k in ks <==> k in listed
    ensures |ks| == |listed|
    ensures StrictlyAscending(ks)
  {
    assert forall k :: k in ks <==> k in multiset(ks);
    assert forall k :: k in listed <==> k in multiset(listed);
    assert |ks| == |multiset(ks)|;
    DistinctMultiset(listed);
    AscendingDistinct(ks);
  }

  lemma {:induction false} DistinctMultiset(s: seq<string>)
    requires forall i, j :: 0 <= i < j < |s| ==> s[i] != s[j]
    ensures forall k :: multiset(s)[k] <= 1
    decreases |s|
  {
    if s != [] {
      var init := s[..|s| - 1];
      DistinctMultiset(init);
      assert s == init + [s[|s| - 1]];
      assert s[|s| - 1] !in init;
    }
  }

  lemma AscendingDistinct(s: seq<string>)
    requires Sorted(Text.LexLe, s)
    requires forall k :: multiset(s)[k] <= 1
    ensures StrictlyAscending(s)
  {
    forall i, j | 0 <= i < j < |s| ensures s[i] != s[j] {
      if s[i] == s[j] {
        TwoCopies(s, i, j);
        assert false;
      }
    }
  }

  lemma TwoCopies(s: seq<string>, i: nat, j: nat)
    requires i < j < |s| && s[i] == s[j]
    ensures multiset(s)[s[i]] >= 2
  {
    var a, b, c := s[..i], s[i..j], s[j..];
    assert s == a + b + c;
    assert s[i] in b && s[j] in c;
  }
}
