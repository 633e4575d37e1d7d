/** A word counter that remembers the order in which words were first seen,
    and its listing of words by frequency, most common first. */
module Counting {
  import opened Text
  import opened Occurrences
  import opened Ranking

  /** Counts per word, with the words kept in first-insertion order. */
  datatype Counter = Counter(keys: seq<String>, counts: map<String, nat>) {

    /** Each counted word is listed exactly once among the keys. */
    ghost predicate Valid() {
      && (forall w :: w in keys <==> w in counts)
      && (forall i, j :: 0 <= i < j < |keys| ==> keys[i] != keys[j])
    }

    /** Counts one more occurrence of `w`; a word seen for the first time
        is appended to the keys with count one. */
    function Add(w: String): (c: Counter)
      requires Valid()
      ensures c.Valid()
      ensures w in c.counts && c.counts[w] == (if w in counts then counts[w] else 0) + 1
      ensures forall v :: v != w ==> (v in c.counts <==> v in counts)
      ensures forall v :: v != w && v in counts ==> c.counts[v] == counts[v]
      ensures w in counts ==> c.keys == keys
      ensures w !in counts ==> c.keys == keys + [w]
    {
      if w in counts then Counter(keys, counts[w := counts[w] + 1])
      else Counter(keys + [w], counts[w := 1])
    }

    /** The (word, count) pairs in key order. */
    function Items(): (r: seq<Entry>)
      requires Valid()
      ensures Words(r) == keys
      ensures forall i :: 0 <= i < |r| ==> r[i].0 in counts && r[i].1 == counts[r[i].0]
    {
      seq(|keys|, i requires 0 <= i < |keys| => (keys[i], counts[keys[i]]))
    }
  }

  /** Counting one more word keeps the counts equal to the occurrences. */
  lemma AddCountsOccurrences(c: Counter, p: seq<String>, x: String)
    requires c.Valid()
    requires forall w :: w in c.counts <==> w in p
    requires forall w :: w in c.counts ==> c.counts[w] == Count(p, w)
    ensures forall w :: w in c.Add(x).counts <==> w in p + [x]
    ensures forall w :: w in c.Add(x).counts ==> c.Add(x).counts[w] == Count(p + [x], w)
  {
    var s := p + [x];
    assert s[..|s| - 1] == p && s[|s| - 1] == x;
    var d := c.Add(x);
    forall w
      ensures w in d.counts <==> w in s
    {
      assert w in s <==> w in p || w == x;
    }
    forall w | w in d.counts
      ensures d.counts[w] == Count(s, w)
    {
      assert Count(s, w) == Count(p, w) + (if w == x then 1 else 0);
      CountPositive(p, w);
      if w != x {
        assert w in c.counts;
      }
    }
  }

  /** Counting one more word keeps the keys in first-occurrence order. */
  lemma AddKeepsFirstOccurrenceOrder(c: Counter, p: seq<String>, x: String)
    requires c.Valid()
    requires forall w :: w in c.counts <==> w in p
    requires forall i, j :: 0 <= i < j < |c.keys| ==> FirstIndex(p, c.keys[i]) < FirstIndex(p, c.keys[j])
    ensures forall i, j :: 0 <= i < j < |c.Add(x).keys| ==>
              FirstIndex(p + [x], c.Add(x).keys[i]) < FirstIndex(p + [x], c.Add(x).keys[j])
  {
    FirstIndexAppend(p, x);
    var keys := c.Add(x).keys;
    forall i, j | 0 <= i < j < |keys|
      ensures FirstIndex(p + [x], keys[i]) < FirstIndex(p + [x], keys[j])
    {
      assert keys[i] in c.keys;
      if j < |c.keys| {
        assert keys[j] in c.keys;
      }
    }
  }

  /** Counts a sequence of words from left to right. */
  function Tally(s: seq<String>): (c: Counter)
    ensures c.Valid()
    ensures forall w :: w in c.counts <==> w in s
    ensures forall w :: w in c.counts ==> c.counts[w] == Count(s, w)
    ensures forall i, j :: 0 <= i < j < |c.keys| ==> FirstIndex(s, c.keys[i]) < FirstIndex(s, c.keys[j])
  {
    if s == [] then Counter([], map[])
    else
      var p := s[..|s| - 1];
      var x := s[|s| - 1];
      assert s == p + [x];
      var c := Tally(p);
      AddCountsOccurrences(c, p, x);
      AddKeepsFirstOccurrenceOrder(c, p, x);
      c.Add(x)
  }

  /** Counting a word already seen raises its item's count in place. */
  lemma AddSeenItems(c: Counter, x: String, k: nat)
    requires c.Valid()
    requires k < |c.keys| && c.keys[k] == x
    ensures c.Add(x).Items() == CountOneMore(c.Items(), k)
  {
    var a := c.Items();
    var b := c.Add(x).Items();
    assert Words(a)[k] == x;
    forall i | 0 <= i < |b|
      ensures b[i] == CountOneMore(a, k)[i]
    {
      assert Words(b)[i] == Words(a)[i];
    }
  }

  /** Counting a new word appends an item with count one. */
  lemma AddNewItems(c: Counter, x: String)
    requires c.Valid()
    requires x !in c.counts
    ensures c.Add(x).Items() == c.Items() + [(x, 1)]
  {
    var a := c.Items();
    var b := c.Add(x).Items();
    forall i | 0 <= i < |b|
      ensures b[i] == (a + [(x, 1)])[i]
    {
      assert Words(b)[i] == (c.keys + [x])[i];
      if i < |a| {
        assert Words(a)[i] == c.keys[i];
      }
    }
  }

  /** Counting one more word adds one to the total of the counts. */
  lemma AddCountsOneMore(c: Counter, x: String)
    requires c.Valid()
    ensures SumCounts(c.Add(x).Items()) == SumCounts(c.Items()) + 1
  {
    var a := c.Items();
    if x in c.counts {
      var k :| 0 <= k < |c.keys| && c.keys[k] == x;
      AddSeenItems(c, x, k);
      SumCountsIncrement(a, k);
    } else {
      var e: Entry := (x, 1);
      AddNewItems(c, x);
      SumCountsAppend(a, e);
      assert c.Add(x).Items() == a + [e];
    }
  }

  /** Every counted word contributes one to some count: the counts add up
      to the number of words counted. */
  lemma {:induction false} TallyCountsEveryWord(s: seq<String>)
    ensures SumCounts(Tally(s).Items()) == |s|
    decreases |s|
  {
    if s != [] {
      var p := s[..|s| - 1];
      TallyCountsEveryWord(p);
      AddCountsOneMore(Tally(p), s[|s| - 1]);
    } else {
      assert Tally(s).Items() == [];
    }
  }

  /** The items of a tally list each word of `s` once, in order of first
      occurrence, with its number of occurrences. */
  lemma {:induction false} TallyItems(s: seq<String>)
    ensures InFirstOccurrenceOrder(s, Tally(s).Items())
    ensures forall w :: w in Words(Tally(s).Items()) <==> w in s
    ensures forall e <- Tally(s).Items() :: e.1 == Count(s, e.0) && e.1 >= 1
  {
    var c := Tally(s);
    var items := c.Items();
    assert Words(items) == c.keys;
    forall i, j | 0 <= i < j < |items|
      ensures FirstIndex(s, items[i].0) < FirstIndex(s, items[j].0)
    {
      assert Words(items)[i] == c.keys[i] && Words(items)[j] == c.keys[j];
    }
    forall e | e in items
      ensures e.1 == Count(s, e.0) && e.1 >= 1
    {
      CountPositive(s, e.0);
    }
  }

  /** The counted words with their counts, most common first; words with
      equal counts keep the order in which they were first seen. */
  function MostCommon(s: seq<String>): (r: seq<Entry>)
    ensures forall w :: w in Words(r) <==> w in s
    ensures forall i :: 0 <= i < |r| ==> r[i].1 == Count(s, r[i].0) && r[i].1 >= 1
    ensures forall i, j :: 0 <= i < j < |r| ==> r[i].0 != r[j].0
    ensures Ranked(s, r)
    ensures SumCounts(r) == |s|
  {
    var items := Tally(s).Items();
    TallyItems(s);
    var r := SortByCount(items);
    SortByCountIsStable(s, items);
    SameEntriesSameWords(r, items);
    assert forall i :: 0 <= i < |r| ==> r[i] in items;
    RankedWordsDistinct(s, r);
    SumCountsSort(items);
    TallyCountsEveryWord(s);
    r
  }
}
