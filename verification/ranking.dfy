/** Ordering of (word, count) entries by count, highest first, with a
    stable sort: entries with equal counts keep their relative order. */
module Ranking {
  import opened Text
  import opened Occurrences

  /** A word with its number of occurrences. */
  type Entry = (String, nat)

  /** The words of a list of entries, in order. */
  function Words(r: seq<Entry>): (ws: seq<String>)
    ensures |ws| == |r|
    ensures forall i :: 0 <= i < |r| ==> ws[i] == r[i].0
  {
    seq(|r|, i requires 0 <= i < |r| => r[i].0)
  }

  /** Counts never increase from one entry to the next. */
  ghost predicate SortedByCount(r: seq<Entry>) {
    forall i, j :: 0 <= i < j < |r| ==> r[i].1 >= r[j].1
  }

  /** Entry `a` goes before entry `b`: it has the higher count, or the same
      count and a word that occurs first in `order`. */
  ghost predicate RanksBefore(order: seq<String>, a: Entry, b: Entry) {
    || a.1 > b.1
    || (a.1 == b.1 && FirstIndex(order, a.0) < FirstIndex(order, b.0))
  }

  /** Entries are ordered by count, highest first, and entries with equal
      counts by the position at which their word first occurs in `order`. */
  ghost predicate Ranked(order: seq<String>, r: seq<Entry>) {
    forall i, j :: 0 <= i < j < |r| ==> RanksBefore(order, r[i], r[j])
  }

  lemma RankedCons(order: seq<String>, a: Entry, r: seq<Entry>)
    requires Ranked(order, r)
    requires forall j :: 0 <= j < |r| ==> RanksBefore(order, a, r[j])
    ensures Ranked(order, [a] + r)
  {
    forall i, j | 0 <= i < j < |[a] + r|
      ensures RanksBefore(order, ([a] + r)[i], ([a] + r)[j])
    {
      if i > 0 {
        assert ([a] + r)[i] == r[i - 1];
      }
      assert ([a] + r)[j] == r[j - 1];
    }
  }

  /** The words of `r` occur in `order` in strictly increasing first positions. */
  ghost predicate InFirstOccurrenceOrder(order: seq<String>, r: seq<Entry>) {
    forall i, j :: 0 <= i < j < |r| ==> FirstIndex(order, r[i].0) < FirstIndex(order, r[j].0)
  }

  /** Puts `e` in front of the first entry whose count does not exceed its own. */
  function Insert(e: Entry, s: seq<Entry>): (r: seq<Entry>)
    ensures multiset(r) == multiset(s) + multiset{e}
  {
    if s == [] || s[0].1 <= e.1 then [e] + s
    else
      assert s == [s[0]] + s[1..];
      [s[0]] + Insert(e, s[1..])
  }

  lemma MemberOfInsert(e: Entry, s: seq<Entry>, x: Entry)
    requires x in Insert(e, s)
    ensures x == e || x in s
  {
    assert x in multiset(Insert(e, s));
  }

  /** Inserting into a list sorted by count keeps it sorted. */
  lemma {:induction false} InsertSorted(e: Entry, s: seq<Entry>)
    requires SortedByCount(s)
    ensures SortedByCount(Insert(e, s))
    decreases |s|
  {
    if s != [] && s[0].1 > e.1 {
      InsertSorted(e, s[1..]);
      var rest := Insert(e, s[1..]);
      forall j | 0 <= j < |rest|
        ensures rest[j].1 <= s[0].1
      {
        MemberOfInsert(e, s[1..], rest[j]);
      }
    }
  }

  /** Stable sort by count, highest first: insertion sort that places each
      entry ahead of the later entries whose count does not exceed its own. */
  function SortByCount(s: seq<Entry>): (r: seq<Entry>)
    ensures multiset(r) == multiset(s)
    ensures SortedByCount(r)
  {
    if s == [] then []
    else
      assert s == [s[0]] + s[1..];
      InsertSorted(s[0], SortByCount(s[1..]));
      Insert(s[0], SortByCount(s[1..]))
  }

  lemma {:induction false} InsertRanked(order: seq<String>, e: Entry, s: seq<Entry>)
    requires Ranked(order, s)
    requires forall x <- s :: FirstIndex(order, e.0) < FirstIndex(order, x.0)
    ensures Ranked(order, Insert(e, s))
    decreases |s|
  {
    if s == [] || s[0].1 <= e.1 {
      RankedCons(order, e, s);
    } else {
      assert forall x <- s[1..] :: x in s;
      assert Ranked(order, s[1..]) by {
        forall i, j | 0 <= i < j < |s[1..]|
          ensures RanksBefore(order, s[1..][i], s[1..][j])
        {
          assert s[1..][i] == s[i + 1] && s[1..][j] == s[j + 1];
        }
      }
      InsertRanked(order, e, s[1..]);
      var rest := Insert(e, s[1..]);
      forall j | 0 <= j < |rest|
        ensures RanksBefore(order, s[0], rest[j])
      {
        MemberOfInsert(e, s[1..], rest[j]);
        if rest[j] != e {
          var k :| 0 <= k < |s[1..]| && s[1..][k] == rest[j];
          assert s[k + 1] == rest[j];
        }
      }
      RankedCons(order, s[0], rest);
    }
  }

  /** Sorting entries that are listed in first-occurrence order ranks them:
      among equal counts the first-occurring word comes first. */
  lemma {:induction false} SortByCountIsStable(order: seq<String>, s: seq<Entry>)
    requires InFirstOccurrenceOrder(order, s)
    ensures Ranked(order, SortByCount(s))
    decreases |s|
  {
    if s != [] {
      SortByCountIsStable(order, s[1..]);
      var sorted := SortByCount(s[1..]);
      forall x | x in sorted
        ensures FirstIndex(order, s[0].0) < FirstIndex(order, x.0)
      {
        assert x in multiset(s[1..]);
        var k :| 0 <= k < |s[1..]| && s[1..][k] == x;
        assert s[k + 1] == x;
      }
      InsertRanked(order, s[0], sorted);
    }
  }

  /** Lists holding the same entries hold the same words. */
  lemma SameEntriesSameWords(a: seq<Entry>, b: seq<Entry>)
    requires multiset(a) == multiset(b)
    ensures forall x :: x in a <==> x in b
    ensures forall w :: w in Words(a) <==> w in Words(b)
  {
    forall x
      ensures x in a <==> x in b
    {
      assert x in a <==> x in multiset(a);
      assert x in b <==> x in multiset(b);
    }
    forall w | w in Words(a)
      ensures w in Words(b)
    {
      var i :| 0 <= i < |a| && Words(a)[i] == w;
      assert a[i] in b;
      var j :| 0 <= j < |b| && b[j] == a[i];
      assert Words(b)[j] == w;
    }
    forall w | w in Words(b)
      ensures w in Words(a)
    {
      var j :| 0 <= j < |b| && Words(b)[j] == w;
      assert b[j] in a;
      var i :| 0 <= i < |a| && a[i] == b[j];
      assert Words(a)[i] == w;
    }
  }

  /** A list of entries with pairwise different words has as many entries
      as it has words. */
  lemma {:induction false} DistinctWordsCardinality(r: seq<Entry>)
    requires forall i, j :: 0 <= i < j < |r| ==> r[i].0 != r[j].0
    ensures |set w | w in Words(r)| == |r|
    decreases |r|
  {
    if r != [] {
      var p := r[..|r| - 1];
      DistinctWordsCardinality(p);
      var x := r[|r| - 1].0;
      assert Words(r) == Words(p) + [x];
      assert (set w | w in Words(r)) == (set w | w in Words(p)) + {x};
      assert x !in Words(p) by {
        forall k | 0 <= k < |p| ensures Words(p)[k] != x {
          assert r[k].0 != r[|r| - 1].0;
        }
      }
    }
  }

  /** In a ranked list where a word always carries the same count, no word
      is listed twice. */
  lemma RankedWordsDistinct(order: seq<String>, r: seq<Entry>)
    requires Ranked(order, r)
    requires forall i, j :: 0 <= i < |r| && 0 <= j < |r| && r[i].0 == r[j].0 ==> r[i].1 == r[j].1
    ensures forall i, j :: 0 <= i < j < |r| ==> r[i].0 != r[j].0
  {
    forall i, j | 0 <= i < j < |r|
      ensures r[i].0 != r[j].0
    {
      assert RanksBefore(order, r[i], r[j]);
    }
  }

  /** Total of the counts of a list of entries. */
  function SumCounts(s: seq<Entry>): nat {
    if s == [] then 0 else s[0].1 + SumCounts(s[1..])
  }

  lemma {:induction false} SumCountsAppend(s: seq<Entry>, e: Entry)
    ensures SumCounts(s + [e]) == SumCounts(s) + e.1
    decreases |s|
  {
    if s != [] {
      assert (s + [e])[1..] == s[1..] + [e];
      SumCountsAppend(s[1..], e);
    }
  }

  /** The list with one more occurrence counted for entry `k`. */
  function CountOneMore(s: seq<Entry>, k: nat): (r: seq<Entry>)
    requires k < |s|
    ensures |r| == |s| && r[k].0 == s[k].0 && r[k].1 == s[k].1 + 1
    ensures forall i :: 0 <= i < |s| && i != k ==> r[i] == s[i]
  {
    var e: Entry := (s[k].0, s[k].1 + 1);
    s[k := e]
  }

  /** Adding one to a single entry's count adds one to the total. */
  lemma {:induction false} SumCountsIncrement(s: seq<Entry>, k: nat)
    requires k < |s|
    ensures SumCounts(CountOneMore(s, k)) == SumCounts(s) + 1
    decreases |s|
  {
    if k > 0 {
      assert CountOneMore(s, k)[1..] == CountOneMore(s[1..], k - 1);
      SumCountsIncrement(s[1..], k - 1);
    } else {
      assert CountOneMore(s, k)[1..] == s[1..];
    }
  }

  lemma {:induction false} SumCountsInsert(e: Entry, s: seq<Entry>)
    ensures SumCounts(Insert(e, s)) == e.1 + SumCounts(s)
    decreases |s|
  {
    if s != [] && s[0].1 > e.1 {
      SumCountsInsert(e, s[1..]);
    }
  }

  /** Sorting neither adds nor loses occurrences. */
  lemma {:induction false} SumCountsSort(s: seq<Entry>)
    ensures SumCounts(SortByCount(s)) == SumCounts(s)
    decreases |s|
  {
    if s != [] {
      SumCountsSort(s[1..]);
      SumCountsInsert(s[0], SortByCount(s[1..]));
    }
  }
}
