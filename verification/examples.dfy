module ExampleWords {
  import opened Text
  import opened StopWords

  /** The stop words in the five rows in which the program lists them;
      showing that a word is not a stop word goes one short row at a time. */
  const ROW_1: set<String> := {"der", "die", "das", "und", "ist", "in", "zu", "den", "dem", "des"}
  const ROW_2: set<String> := {"mit", "auf", "für", "von", "ein", "eine", "einen", "sich", "aus"}
  const ROW_3: set<String> := {"dass", "nicht", "war", "aber", "man", "bei", "wie", "wir", "oder"}
  const ROW_4: set<String> := {"kann", "sind", "werden", "wird", "auch", "noch", "nur", "vor", "nach"}
  const ROW_5: set<String> := {"über", "wenn", "zum", "zur", "habe", "hat", "durch", "unter", "diese"}

  lemma StopWordsByRow()
    ensures STOP_WORDS == ROW_1 + ROW_2 + ROW_3 + ROW_4 + ROW_5
  {
  }

  lemma HausNotInRow1() ensures "haus" !in ROW_1 { }
  lemma HausNotInRow2() ensures "haus" !in ROW_2 { }
  lemma HausNotInRow3() ensures "haus" !in ROW_3 { }
  lemma HausNotInRow4() ensures "haus" !in ROW_4 { }
  lemma HausNotInRow5() ensures "haus" !in ROW_5 { }

  lemma HausNotStopWord()
    ensures "haus" !in STOP_WORDS
  {
    StopWordsByRow();
    HausNotInRow1();
    HausNotInRow2();
    HausNotInRow3();
    HausNotInRow4();
    HausNotInRow5();
  }

  lemma BaumNotInRow1() ensures "baum" !in ROW_1 { }
  lemma BaumNotInRow2() ensures "baum" !in ROW_2 { }
  lemma BaumNotInRow3() ensures "baum" !in ROW_3 { }
  lemma BaumNotInRow4() ensures "baum" !in ROW_4 { }
  lemma BaumNotInRow5() ensures "baum" !in ROW_5 { }

  lemma BaumNotStopWord()
    ensures "baum" !in STOP_WORDS
  {
    StopWordsByRow();
    BaumNotInRow1();
    BaumNotInRow2();
    BaumNotInRow3();
    BaumNotInRow4();
    BaumNotInRow5();
  }
}

module Examples {
  import opened Text
  import opened StopWords
  import opened Occurrences
  import opened Ranking
  import opened Counting
  import opened Vocabulary
  import ExampleWords

  /** A ranking of a word sequence over two distinct words, the first
      strictly more frequent, is exactly those two entries, the first first. */
  lemma RankingOfTwoWords(s: seq<String>, r: seq<Entry>, a: String, b: String)
    requires a != b && a in s && b in s
    requires forall w <- s :: w == a || w == b
    requires Count(s, a) > Count(s, b)
    requires forall w :: w in Words(r) <==> w in s
    requires forall i :: 0 <= i < |r| ==> r[i].1 == Count(s, r[i].0)
    requires forall i, j :: 0 <= i < j < |r| ==> r[i].0 != r[j].0
    requires Ranked(s, r)
    ensures r == [(a, Count(s, a)), (b, Count(s, b))]
  {
    assert forall k :: 0 <= k < |r| ==> r[k].0 == a || r[k].0 == b by {
      forall k | 0 <= k < |r| ensures r[k].0 == a || r[k].0 == b {
        var w := Words(r)[k];
        assert w in Words(r);
        assert w in s;
      }
    }
    assert |r| == 2 by {
      DistinctWordsCardinality(r);
      assert (set w | w in Words(r)) == {a, b};
    }
    assert RanksBefore(s, r[0], r[1]);
    assert r[0].0 == a && r[1].0 == b;
  }

  lemma CountsOfHausBaum(s: seq<String>)
    requires s == ["Haus", "Baum", "Haus", "Baum", "Haus"]
    ensures Count(s, "Haus") == 3 && Count(s, "Baum") == 2
    ensures forall w <- s :: w == "Haus" || w == "Baum"
  {
    var p1: seq<String> := ["Haus"];
    var p2: seq<String> := p1 + ["Baum"];
    var p3: seq<String> := p2 + ["Haus"];
    var p4: seq<String> := p3 + ["Baum"];
    assert s == p4 + ["Haus"];
    assert p1 == [] + ["Haus"];
    forall w
      ensures Count(s, w) == 3 * (if w == "Haus" then 1 else 0) + 2 * (if w == "Baum" then 1 else 0)
    {
      CountAppend([], "Haus", w);
      CountAppend(p1, "Baum", w);
      CountAppend(p2, "Haus", w);
      CountAppend(p3, "Baum", w);
      CountAppend(p4, "Haus", w);
    }
  }

  lemma TallyHausBaum(s: seq<String>)
    requires s == ["Haus", "Baum", "Haus", "Baum", "Haus"]
    ensures MostCommon(s) == [("Haus", 3), ("Baum", 2)]
  {
    CountsOfHausBaum(s);
    assert s[0] == "Haus" && s[1] == "Baum";
    RankingOfTwoWords(s, MostCommon(s), "Haus", "Baum");
  }

  lemma LowerHaus()
    ensures Lower("Haus") == "haus" && Lower("Baum") == "baum"
  {
    assert LowerChar('H') == 'h' && LowerChar('B') == 'b';
  }

  lemma HausBaumAreTokens(ws: seq<String>)
    requires ws == ["Haus", "Baum", "Haus", "Baum", "Haus"]
    ensures forall w <- ws :: IsToken(w)
  {
    assert IsToken("Haus") && IsToken("Baum");
  }

  lemma JoinHausBaum(ws: seq<String>)
    requires ws == ["Haus", "Baum", "Haus", "Baum", "Haus"]
    ensures JoinSpaced(ws) == "Haus Baum Haus Baum Haus"
  {
    assert JoinSpaced(ws[4..]) == "Haus";
    assert JoinSpaced(ws[3..]) == "Baum Haus";
    assert JoinSpaced(ws[2..]) == "Haus Baum Haus";
    assert JoinSpaced(ws[1..]) == "Baum Haus Baum Haus";
  }

  lemma TokensOfHausBaum(text: String, ws: seq<String>)
    requires text == "Haus Baum Haus Baum Haus"
    requires ws == ["Haus", "Baum", "Haus", "Baum", "Haus"]
    ensures Tokens(text) == ws
  {
    JoinHausBaum(ws);
    assert forall c <- text :: IsRetained(c);
    StripIdentity(text);
    HausBaumAreTokens(ws);
    SplitJoinSpaced(ws);
  }

  lemma HausBaumNotNumeric()
    ensures !IsAllDigits("haus") && !IsAllDigits("baum")
  {
    assert "haus"[0] == 'h' && "baum"[0] == 'b';
  }

  lemma KeepsHausBaum()
    ensures Keeps("Haus", 4, STOP_WORDS) && Keeps("Baum", 4, STOP_WORDS)
  {
    LowerHaus();
    ExampleWords.HausNotStopWord();
    ExampleWords.BaumNotStopWord();
    HausBaumNotNumeric();
  }

  lemma KeptHausBaum(ws: seq<String>)
    requires ws == ["Haus", "Baum", "Haus", "Baum", "Haus"]
    ensures Kept(ws, 4, STOP_WORDS) == ws
  {
    KeepsHausBaum();
    assert forall w <- ws :: w == "Haus" || w == "Baum";
    KeptEverything(ws, 4, STOP_WORDS);
  }

  /** The worked example: five tokens, two words, "Haus" three times and
      "Baum" twice, minimum length four. */
  lemma HausBaumExample(text: String)
    requires text == "Haus Baum Haus Baum Haus"
    ensures CleanAndCount(text, 4) == [("Haus", 3), ("Baum", 2)]
  {
    var ws: seq<String> := ["Haus", "Baum", "Haus", "Baum", "Haus"];
    TokensOfHausBaum(text, ws);
    KeptHausBaum(ws);
    TallyHausBaum(ws);
    CleanAndCountRanksKept(text, 4);
  }

  lemma CountsOfHausCases(s: seq<String>)
    requires s == ["Haus", "haus", "Haus"]
    ensures Count(s, "Haus") == 2 && Count(s, "haus") == 1
    ensures forall w <- s :: w == "Haus" || w == "haus"
  {
    var p1: seq<String> := ["Haus"];
    var p2: seq<String> := p1 + ["haus"];
    assert s == p2 + ["Haus"];
    assert p1 == [] + ["Haus"];
    forall w
      ensures Count(s, w) == 2 * (if w == "Haus" then 1 else 0) + (if w == "haus" then 1 else 0)
    {
      CountAppend([], "Haus", w);
      CountAppend(p1, "haus", w);
      CountAppend(p2, "Haus", w);
    }
  }

  lemma JoinHausCases(ws: seq<String>)
    requires ws == ["Haus", "haus", "Haus"]
    ensures JoinSpaced(ws) == "Haus haus Haus"
  {
    assert JoinSpaced(ws[2..]) == "Haus";
    assert JoinSpaced(ws[1..]) == "haus Haus";
  }

  lemma HausCasesAreTokens(ws: seq<String>)
    requires ws == ["Haus", "haus", "Haus"]
    ensures forall w <- ws :: IsToken(w)
  {
    assert IsToken("Haus") && IsToken("haus");
  }

  lemma TokensOfHausCases(text: String, ws: seq<String>)
    requires text == "Haus haus Haus"
    requires ws == ["Haus", "haus", "Haus"]
    ensures Tokens(text) == ws
  {
    JoinHausCases(ws);
    assert forall c <- text :: IsRetained(c);
    StripIdentity(text);
    HausCasesAreTokens(ws);
    SplitJoinSpaced(ws);
  }

  lemma KeepsHausCases()
    ensures Keeps("Haus", 4, STOP_WORDS) && Keeps("haus", 4, STOP_WORDS)
  {
    LowerHaus();
    LowerFixesLowercase("haus");
    ExampleWords.HausNotStopWord();
    HausBaumNotNumeric();
  }

  lemma KeptHausCases(ws: seq<String>)
    requires ws == ["Haus", "haus", "Haus"]
    ensures Kept(ws, 4, STOP_WORDS) == ws
  {
    KeepsHausCases();
    assert forall w <- ws :: w == "Haus" || w == "haus";
    KeptEverything(ws, 4, STOP_WORDS);
  }

  /** Counting is case-sensitive: "Haus" and "haus" are reported as two
      words, although both lower-case to the same string. */
  lemma CaseSensitiveExample(text: String)
    requires text == "Haus haus Haus"
    ensures CleanAndCount(text, 4) == [("Haus", 2), ("haus", 1)]
  {
    var ws: seq<String> := ["Haus", "haus", "Haus"];
    TokensOfHausCases(text, ws);
    KeptHausCases(ws);
    CountsOfHausCases(ws);
    assert ws[0] == "Haus" && ws[1] == "haus";
    RankingOfTwoWords(ws, MostCommon(ws), "Haus", "haus");
    CleanAndCountRanksKept(text, 4);
  }

  /** "Die" and "für" are never reported, from any text and for any
      minimum length. */
  lemma DieAndFuerNeverReported(text: String, minLen: int)
    ensures "Die" !in Words(CleanAndCount(text, minLen))
    ensures "für" !in Words(CleanAndCount(text, minLen))
  {
    assert LowerChar('D') == 'd';
    assert Lower("Die") == "die";
    LowerFixesLowercase("für");
    StopWordsNeverReported(text, minLen, "Die");
    StopWordsNeverReported(text, minLen, "für");
  }
}
