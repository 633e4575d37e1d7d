/** The word filter and frequency ranker: delete characters outside the
    German alphabet, split on whitespace, keep the tokens that pass the
    length, stop-word and digit tests, and list the kept tokens by
    frequency, most common first. */
module Vocabulary {
  import opened Text
  import opened StopWords
  import opened Occurrences
  import opened Ranking
  import opened Counting

  /** The tokens of a text: its retained characters split on whitespace. */
  function Tokens(text: String): (ts: seq<String>)
    ensures forall t <- ts :: |t| > 0 && forall c <- t :: IsGermanLetter(c)
  {
    var stripped := Strip(text);
    var ts := Split(stripped);
    assert forall t <- ts :: forall c <- t :: IsGermanLetter(c) by {
      forall t, c | t in ts && c in t ensures IsGermanLetter(c) {
        assert c in stripped && !IsWhitespace(c);
      }
    }
    ts
  }

  /** A token is kept when its lower-case form is at least `minLen`
      characters long, is not in the stop-word set `stop` and is not
      numeric. The filter proper passes `STOP_WORDS`; the lemmas about
      filtering hold for any stop-word set. */
  predicate Keeps(token: String, minLen: int, stop: set<String>) {
    var lower := Lower(token);
    |lower| >= minLen && lower !in stop && !IsAllDigits(lower)
  }

  /** The tokens that pass the filter, in their original spelling and order. */
  function Kept(tokens: seq<String>, minLen: int, stop: set<String>): (r: seq<String>)
    ensures |r| <= |tokens|
    ensures forall t :: t in r <==> t in tokens && Keeps(t, minLen, stop)
  {
    if tokens == [] then []
    else
      var p := tokens[..|tokens| - 1];
      var t := tokens[|tokens| - 1];
      assert tokens == p + [t];
      Kept(p, minLen, stop) + (if Keeps(t, minLen, stop) then [t] else [])
  }

  lemma KeptAppend(tokens: seq<String>, t: String, minLen: int, stop: set<String>)
    ensures Kept(tokens + [t], minLen, stop)
         == Kept(tokens, minLen, stop) + (if Keeps(t, minLen, stop) then [t] else [])
  {
    assert (tokens + [t])[..|tokens|] == tokens;
  }

  /** Filtering works piece by piece: the kept tokens of two runs of tokens
      are those of the first run followed by those of the second, so the
      filter keeps the tokens in their original order. */
  lemma {:induction false} KeptConcat(a: seq<String>, b: seq<String>, minLen: int, stop: set<String>)
    ensures Kept(a + b, minLen, stop) == Kept(a, minLen, stop) + Kept(b, minLen, stop)
    decreases |b|
  {
    if b == [] {
      assert a + b == a;
    } else {
      var p := b[..|b| - 1];
      var x := b[|b| - 1];
      var e := if Keeps(x, minLen, stop) then [x] else [];
      assert b == p + [x];
      assert a + b == (a + p) + [x];
      KeptConcat(a, p, minLen, stop);
      KeptAppend(a + p, x, minLen, stop);
      KeptAppend(p, x, minLen, stop);
      var ka := Kept(a, minLen, stop);
      var kp := Kept(p, minLen, stop);
      assert Kept(a + b, minLen, stop) == (ka + kp) + e;
      assert Kept(b, minLen, stop) == kp + e;
      assert (ka + kp) + e == ka + (kp + e);
    }
  }

  /** Two kept words occur first in the same order among the kept tokens
      as among all the tokens. */
  lemma {:induction false} KeptFirstOccurrenceOrder(tokens: seq<String>, minLen: int, stop: set<String>, u: String, v: String)
    requires u in tokens && Keeps(u, minLen, stop)
    requires v in tokens && Keeps(v, minLen, stop)
    ensures FirstIndex(Kept(tokens, minLen, stop), u) < FirstIndex(Kept(tokens, minLen, stop), v)
        <==> FirstIndex(tokens, u) < FirstIndex(tokens, v)
    decreases |tokens|
  {
    var t0 := tokens[0];
    var rest := tokens[1..];
    assert tokens == [t0] + rest;
    KeptConcat([t0], rest, minLen, stop);
    KeptAppend([], t0, minLen, stop);
    assert [] + [t0] == [t0];
    var head := Kept([t0], minLen, stop);
    var k := Kept(tokens, minLen, stop);
    assert k == head + Kept(rest, minLen, stop);
    if u != v && t0 != u && t0 != v {
      KeptFirstOccurrenceOrder(rest, minLen, stop, u, v);
      FirstIndexAfter(head, Kept(rest, minLen, stop), u);
      FirstIndexAfter(head, Kept(rest, minLen, stop), v);
    } else if u != v && t0 == u {
      assert k[0] == u;
    } else if u != v {
      assert k[0] == v;
    }
  }

  /** A ranking whose ties follow first occurrence among the kept tokens
      has its ties follow first occurrence among all the tokens. */
  lemma RankedOnTokens(tokens: seq<String>, minLen: int, stop: set<String>, r: seq<Entry>)
    requires Ranked(Kept(tokens, minLen, stop), r)
    requires forall e <- r :: e.0 in tokens && Keeps(e.0, minLen, stop)
    ensures Ranked(tokens, r)
  {
    forall i, j | 0 <= i < j < |r|
      ensures RanksBefore(tokens, r[i], r[j])
    {
      assert RanksBefore(Kept(tokens, minLen, stop), r[i], r[j]);
      assert r[i] in r && r[j] in r;
      KeptFirstOccurrenceOrder(tokens, minLen, stop, r[i].0, r[j].0);
    }
  }

  /** A kept token is counted as often as it occurs among the tokens; a
      dropped token not at all. */
  lemma {:induction false} KeptCount(tokens: seq<String>, minLen: int, stop: set<String>, w: String)
    ensures Count(Kept(tokens, minLen, stop), w) == if Keeps(w, minLen, stop) then Count(tokens, w) else 0
    decreases |tokens|
  {
    if tokens != [] {
      var p := tokens[..|tokens| - 1];
      var t := tokens[|tokens| - 1];
      KeptCount(p, minLen, stop, w);
      var k := Kept(tokens, minLen, stop);
      if Keeps(t, minLen, stop) {
        assert k == Kept(p, minLen, stop) + [t];
        assert k[..|k| - 1] == Kept(p, minLen, stop);
      } else {
        assert k == Kept(p, minLen, stop);
        if Keeps(w, minLen, stop) {
          assert t != w;
        }
      }
    }
  }

  /** What a reported word looks like: at least `minLen` letters of the
      German alphabet, not in `stop` once lower-cased, and not numeric. */
  predicate IsVocabularyWord(w: String, minLen: int, stop: set<String>) {
    && |w| >= minLen
    && (forall c <- w :: IsGermanLetter(c))
    && Lower(w) !in stop
    && !IsAllDigits(Lower(w))
  }

  /** A token of the text that passes the filter is a vocabulary word. */
  lemma KeptTokenIsVocabularyWord(text: String, minLen: int, stop: set<String>, t: String)
    requires t in Tokens(text) && Keeps(t, minLen, stop)
    ensures IsVocabularyWord(t, minLen, stop)
  {
  }

  /** Ranking the kept tokens reports exactly the tokens that pass the
      filter, each with its number of occurrences among all the tokens. */
  lemma {:induction false} RankingOfKept(tokens: seq<String>, minLen: int, stop: set<String>)
    ensures forall t :: t in Words(MostCommon(Kept(tokens, minLen, stop))) <==> t in tokens && Keeps(t, minLen, stop)
    ensures forall e <- MostCommon(Kept(tokens, minLen, stop)) :: e.1 == Count(tokens, e.0)
  {
    var r := MostCommon(Kept(tokens, minLen, stop));
    forall e | e in r
      ensures e.1 == Count(tokens, e.0)
    {
      var i :| 0 <= i < |r| && r[i] == e;
      assert Words(r)[i] == e.0;
      KeptCount(tokens, minLen, stop, e.0);
    }
  }

  /** Ranking the kept tokens breaks ties by first occurrence among all
      the tokens. */
  lemma RankingFollowsTokens(tokens: seq<String>, minLen: int, stop: set<String>)
    ensures Ranked(tokens, MostCommon(Kept(tokens, minLen, stop)))
  {
    var r := MostCommon(Kept(tokens, minLen, stop));
    RankingOfKept(tokens, minLen, stop);
    forall e | e in r
      ensures e.0 in tokens && Keeps(e.0, minLen, stop)
    {
      var i :| 0 <= i < |r| && r[i] == e;
      assert Words(r)[i] == e.0;
    }
    RankedOnTokens(tokens, minLen, stop, r);
  }

  /** Every entry of the ranking of a text's kept tokens is a vocabulary
      word counted as often as it occurs among the text's tokens. */
  lemma {:induction false} RankedEntriesOfText(text: String, minLen: int, stop: set<String>)
    ensures forall e <- MostCommon(Kept(Tokens(text), minLen, stop)) ::
              e.1 == Count(Tokens(text), e.0) && e.1 >= 1 && IsVocabularyWord(e.0, minLen, stop)
  {
    var tokens := Tokens(text);
    var r := MostCommon(Kept(tokens, minLen, stop));
    RankingOfKept(tokens, minLen, stop);
    forall e | e in r
      ensures e.1 >= 1 && IsVocabularyWord(e.0, minLen, stop)
    {
      var i :| 0 <= i < |r| && r[i] == e;
      assert Words(r)[i] == e.0;
      KeptTokenIsVocabularyWord(text, minLen, stop, e.0);
    }
  }

  /** The words of `text` that pass the filter with their number of
      occurrences, most frequent first, ties in order of first occurrence.
      Counting keys on the original spelling: "Haus" and "haus" are two words. */
  function CleanAndCount(text: String, minLen: int): (r: seq<Entry>)
    ensures forall t :: t in Words(r) <==> t in Tokens(text) && Keeps(t, minLen, STOP_WORDS)
    ensures forall e <- r :: e.1 == Count(Tokens(text), e.0) && e.1 >= 1 && IsVocabularyWord(e.0, minLen, STOP_WORDS)
  {
    RankingOfKept(Tokens(text), minLen, STOP_WORDS);
    RankedEntriesOfText(text, minLen, STOP_WORDS);
    MostCommon(Kept(Tokens(text), minLen, STOP_WORDS))
  }

  /** The report is the ranking of the kept tokens. */
  lemma CleanAndCountRanksKept(text: String, minLen: int)
    ensures CleanAndCount(text, minLen) == MostCommon(Kept(Tokens(text), minLen, STOP_WORDS))
  {
  }

  /** Each reported word appears once; the list is ordered by count,
      most frequent first, ties in order of first occurrence among the kept
      tokens, which is their order of first occurrence among all the
      tokens; and the counts add up to the number of kept tokens. */
  lemma CleanAndCountOrder(text: String, minLen: int)
    ensures var r := CleanAndCount(text, minLen);
      && (forall i, j :: 0 <= i < j < |r| ==> r[i].0 != r[j].0)
      && Ranked(Kept(Tokens(text), minLen, STOP_WORDS), r)
      && SumCounts(r) == |Kept(Tokens(text), minLen, STOP_WORDS)|
      && Ranked(Tokens(text), r)
  {
    CleanAndCountRanksKept(text, minLen);
    RankingFollowsTokens(Tokens(text), minLen, STOP_WORDS);
  }

  /** The digit test never decides anything: after the character filter no
      token contains a digit, so a token is kept exactly when it passes the
      length and stop-word tests. */
  lemma DigitTestNeverFires(text: String, minLen: int, stop: set<String>, t: String)
    requires t in Tokens(text)
    ensures !IsAllDigits(Lower(t))
    ensures Keeps(t, minLen, stop) <==> |t| >= minLen && Lower(t) !in stop
  {
    var lower := Lower(t);
    assert lower[0] in lower;
  }

  /** When every token passes the filter, all of them are kept. */
  lemma {:induction false} KeptEverything(tokens: seq<String>, minLen: int, stop: set<String>)
    requires forall t <- tokens :: Keeps(t, minLen, stop)
    ensures Kept(tokens, minLen, stop) == tokens
    decreases |tokens|
  {
    if tokens != [] {
      var p := tokens[..|tokens| - 1];
      assert tokens == p + [tokens[|tokens| - 1]];
      assert forall t <- p :: t in tokens;
      KeptEverything(p, minLen, stop);
    }
  }

  /** A word whose lower-case form is a stop word is never reported,
      whatever its capitalisation and whatever the minimum length. */
  lemma StopWordsNeverReported(text: String, minLen: int, w: String)
    requires Lower(w) in STOP_WORDS
    ensures w !in Words(CleanAndCount(text, minLen))
  {
  }
}
