/** How often, and where first, a word occurs in a sequence of words. */
module Occurrences {
  import opened Text

  /** Number of positions of `s` that hold `w`. */
  function Count(s: seq<String>, w: String): nat {
    if s == [] then 0
    else Count(s[..|s| - 1], w) + (if s[|s| - 1] == w then 1 else 0)
  }

  /** Appending a word counts it once more and leaves every other count alone. */
  lemma CountAppend(s: seq<String>, x: String, w: String)
    ensures Count(s + [x], w) == Count(s, w) + (if x == w then 1 else 0)
  {
    assert (s + [x])[..|s|] == s;
  }

  /** The count of a word is its multiplicity in the multiset of the words. */
  lemma {:induction false} CountIsMultiplicity(s: seq<String>, w: String)
    ensures Count(s, w) == multiset(s)[w]
    decreases |s|
  {
    if s != [] {
      var p := s[..|s| - 1];
      assert s == p + [s[|s| - 1]];
      CountIsMultiplicity(p, w);
    }
  }

  /** A word is counted at least once exactly when it occurs. */
  lemma {:induction false} CountPositive(s: seq<String>, w: String)
    ensures Count(s, w) > 0 <==> w in s
    decreases |s|
  {
    if s != [] {
      var p := s[..|s| - 1];
      assert s == p + [s[|s| - 1]];
      CountPositive(p, w);
    }
  }

  /** Index of the first occurrence of `w` in `s`, or `|s|` when it does not occur. */
  function FirstIndex(s: seq<String>, w: String): (i: nat)
    ensures i <= |s|
    ensures i < |s| <==> w in s
    ensures i < |s| ==> s[i] == w
    ensures forall j :: 0 <= j < i ==> s[j] != w
  {
    if s == [] then 0
    else if s[0] == w then 0
    else 1 + FirstIndex(s[1..], w)
  }

  /** Appending a word does not move the first occurrence of any word
      already present, and a word appended for the first time has its first
      occurrence at the end. */
  lemma {:induction false} FirstIndexAppend(s: seq<String>, x: String)
    ensures forall w :: w in s ==> FirstIndex(s + [x], w) == FirstIndex(s, w)
    ensures x !in s ==> FirstIndex(s + [x], x) == |s|
  {
    forall w | w in s
      ensures FirstIndex(s + [x], w) == FirstIndex(s, w)
    {
      var k := FirstIndex(s, w);
      assert (s + [x])[k] == w;
    }
    if x !in s {
      assert (s + [x])[|s|] == x;
    }
  }

  /** Words before the first occurrence of `w` shift it by their number. */
  lemma {:induction false} FirstIndexAfter(p: seq<String>, s: seq<String>, w: String)
    requires w !in p
    ensures FirstIndex(p + s, w) == |p| + FirstIndex(s, w)
    decreases |p|
  {
    if p != [] {
      assert (p + s)[0] == p[0] && (p + s)[1..] == p[1..] + s;
      FirstIndexAfter(p[1..], s, w);
    } else {
      assert p + s == s;
    }
  }
}
