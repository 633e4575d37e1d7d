/** Characters and strings as the word filter sees them: the German alphabet
    of the filter's character class, a fixed set of whitespace characters,
    lower-casing on that alphabet, deletion of every other character, and
    splitting on runs of whitespace. */
module Text {

  type String = seq<char>

  /** The letters the filter's character class spells out: a-z, A-Z,
      the umlauts in both cases, and ß. */
  predicate IsGermanLetter(c: char) {
    || ('a' <= c <= 'z')
    || ('A' <= c <= 'Z')
    || c == 'ä' || c == 'ö' || c == 'ü'
    || c == 'Ä' || c == 'Ö' || c == 'Ü'
    || c == 'ß'
  }

  /** The upper-case letters of the German alphabet. */
  predicate IsUpperLetter(c: char) {
    ('A' <= c <= 'Z') || c == 'Ä' || c == 'Ö' || c == 'Ü'
  }

  /** `u` is an upper-case letter and `l` is its own lower-case letter: A-Z
      with a-z at the same alphabet position, and Ä/ä, Ö/ö, Ü/ü. */
  predicate IsCasePair(u: char, l: char) {
    || ('A' <= u <= 'Z' && 'a' <= l <= 'z' && u as int - 'A' as int == l as int - 'a' as int)
    || (u == 'Ä' && l == 'ä')
    || (u == 'Ö' && l == 'ö')
    || (u == 'Ü' && l == 'ü')
  }

  /** Whitespace: space, tab, line feed, vertical tab, form feed, carriage return. */
  predicate IsWhitespace(c: char) {
    c == ' ' || c == '\t' || c == '\n' || c == '\U{0B}' || c == '\U{0C}' || c == '\r'
  }

  predicate IsDigit(c: char) {
    '0' <= c <= '9'
  }

  /** A string is numeric when it is non-empty and made of digits only
      (the empty string is not numeric). */
  predicate IsAllDigits(s: String) {
    |s| > 0 && forall i :: 0 <= i < |s| ==> IsDigit(s[i])
  }

  /** Lower-casing of one character: A-Z to a-z and Ä, Ö, Ü to ä, ö, ü;
      every other character, ß among them, is its own lower case. */
  function LowerChar(c: char): (r: char)
    ensures !IsUpperLetter(c) ==> r == c
    ensures IsUpperLetter(c) ==> r != c && IsGermanLetter(r) && !IsUpperLetter(r)
    ensures IsUpperLetter(c) ==> IsCasePair(c, r)
  {
    if 'A' <= c <= 'Z' then (c as int - 'A' as int + 'a' as int) as char
    else if c == 'Ä' then 'ä'
    else if c == 'Ö' then 'ö'
    else if c == 'Ü' then 'ü'
    else c
  }

  /** Lower-casing of a string, character by character. */
  function Lower(s: String): (r: String)
    ensures |r| == |s|
    ensures forall c <- r :: !IsUpperLetter(c)
    ensures (forall c <- s :: IsGermanLetter(c)) ==> forall c <- r :: IsGermanLetter(c)
    ensures forall i :: 0 <= i < |s| && IsUpperLetter(s[i]) ==> IsCasePair(s[i], r[i])
    ensures forall i :: 0 <= i < |s| && !IsUpperLetter(s[i]) ==> r[i] == s[i]
  {
    seq(|s|, i requires 0 <= i < |s| => LowerChar(s[i]))
  }

  /** A string with no upper-case letter is its own lower case; in
      particular lower-casing twice is lower-casing once. */
  lemma LowerFixesLowercase(s: String)
    requires forall c <- s :: !IsUpperLetter(c)
    ensures Lower(s) == s
  {
    forall i | 0 <= i < |s|
      ensures Lower(s)[i] == s[i]
    {
      assert s[i] in s;
    }
  }

  lemma LowerIdempotent(s: String)
    ensures Lower(Lower(s)) == Lower(s)
  {
    LowerFixesLowercase(Lower(s));
  }

  /** The characters the character filter keeps. */
  predicate IsRetained(c: char) {
    IsGermanLetter(c) || IsWhitespace(c)
  }

  /** Deletes every character that is neither a German letter nor whitespace,
      keeping the others in order. */
  function Strip(s: String): (r: String)
    ensures |r| <= |s|
    ensures forall c <- r :: IsRetained(c)
  {
    if s == [] then []
    else (if IsRetained(s[0]) then [s[0]] else []) + Strip(s[1..])
  }

  /** Stripping keeps every retained character as often as it occurs and
      deletes every other character. */
  lemma {:induction false} StripCountsCharacters(s: String)
    ensures forall c :: multiset(Strip(s))[c] == if IsRetained(c) then multiset(s)[c] else 0
    decreases |s|
  {
    if s != [] {
      StripCountsCharacters(s[1..]);
      assert s == [s[0]] + s[1..];
    }
  }

  /** Stripping distributes over concatenation, so it can be applied
      piece by piece. */
  lemma {:induction false} StripConcat(a: String, b: String)
    ensures Strip(a + b) == Strip(a) + Strip(b)
    decreases |a|
  {
    if a == [] {
      assert a + b == b;
    } else {
      assert (a + b)[1..] == a[1..] + b;
      StripConcat(a[1..], b);
    }
  }

  lemma {:induction false} StripKeepsRetained(s: String)
    requires forall i :: 0 <= i < |s| ==> IsRetained(s[i])
    ensures Strip(s) == s
    decreases |s|
  {
    if s != [] {
      StripKeepsRetained(s[1..]);
      assert IsRetained(s[0]);
    }
  }

  /** Stripping changes nothing exactly when every character is retained. */
  lemma {:induction false} StripIdentity(s: String)
    ensures Strip(s) == s <==> forall c <- s :: IsRetained(c)
  {
    if forall c <- s :: IsRetained(c) {
      StripKeepsRetained(s);
    }
  }

  lemma StripIdempotent(s: String)
    ensures Strip(Strip(s)) == Strip(s)
  {
    StripIdentity(Strip(s));
  }

  /** Length of the maximal run of non-whitespace characters at the start of `s`. */
  function TokenLength(s: String): (n: nat)
    ensures n <= |s|
    ensures forall i :: 0 <= i < n ==> !IsWhitespace(s[i])
    ensures n < |s| ==> IsWhitespace(s[n])
  {
    if s == [] || IsWhitespace(s[0]) then 0 else 1 + TokenLength(s[1..])
  }

  /** Splits on runs of whitespace, dropping empty pieces: leading, trailing
      and repeated whitespace produce no token. */
  function Split(s: String): (r: seq<String>)
    ensures forall t <- r :: |t| > 0
    ensures forall t <- r :: forall c <- t :: !IsWhitespace(c) && c in s
    decreases |s|
  {
    if s == [] then []
    else if IsWhitespace(s[0]) then
      var r := Split(s[1..]);
      assert forall t <- r :: forall c <- t :: c in s by {
        forall t, c | t in r && c in t ensures c in s {
          assert c in s[1..];
        }
      }
      r
    else
      var n := TokenLength(s);
      var rest := Split(s[n..]);
      assert forall t <- rest :: forall c <- t :: c in s by {
        forall t, c | t in rest && c in t ensures c in s {
          assert c in s[n..];
        }
      }
      assert forall c <- s[..n] :: !IsWhitespace(c) && c in s by {
        forall c | c in s[..n] ensures !IsWhitespace(c) && c in s {
          var k :| 0 <= k < n && s[k] == c;
        }
      }
      [s[..n]] + rest
  }

  /** The tokens joined back together with single spaces. */
  function JoinSpaced(ws: seq<String>): String {
    if ws == [] then []
    else if |ws| == 1 then ws[0]
    else ws[0] + " " + JoinSpaced(ws[1..])
  }

  /** A word for the splitter: non-empty, without whitespace. */
  predicate IsToken(w: String) {
    |w| > 0 && forall c <- w :: !IsWhitespace(c)
  }

  lemma {:induction false} TokenLengthOfWord(w: String, t: String)
    requires forall c <- w :: !IsWhitespace(c)
    requires t == [] || IsWhitespace(t[0])
    ensures TokenLength(w + t) == |w|
    decreases |w|
  {
    if w != [] {
      assert w[0] in w;
      assert (w + t)[1..] == w[1..] + t;
      assert forall c <- w[1..] :: c in w;
      TokenLengthOfWord(w[1..], t);
    }
  }

  /** Splitting undoes joining with spaces. */
  lemma {:induction false} SplitJoinSpaced(ws: seq<String>)
    requires forall w <- ws :: IsToken(w)
    ensures Split(JoinSpaced(ws)) == ws
    decreases |ws|
  {
    if ws != [] {
      var w := ws[0];
      assert IsToken(w);
      if |ws| == 1 {
        TokenLengthOfWord(w, []);
        assert w + [] == w;
        assert w[|w|..] == [];
      } else {
        var tail := " " + JoinSpaced(ws[1..]);
        var s := w + tail;
        assert JoinSpaced(ws) == s;
        TokenLengthOfWord(w, tail);
        assert s[..|w|] == w;
        assert s[|w|..] == tail;
        assert tail[1..] == JoinSpaced(ws[1..]);
        assert forall v <- ws[1..] :: v in ws;
        SplitJoinSpaced(ws[1..]);
        assert ws == [w] + ws[1..];
      }
    }
  }

  /** A single token splits into itself. */
  lemma SplitOfToken(w: String)
    requires IsToken(w)
    ensures Split(w) == [w]
  {
    TokenLengthOfWord(w, []);
    assert w + [] == w;
    assert w[|w|..] == [];
  }

  /** Text after a whitespace character does not change the first token. */
  lemma {:induction false} TokenLengthBeforeWhitespace(a: String, t: String)
    requires t == [] || IsWhitespace(t[0])
    ensures TokenLength(a + t) == TokenLength(a)
    decreases |a|
  {
    if a == [] {
      assert a + t == t;
    } else if !IsWhitespace(a[0]) {
      assert (a + t)[0] == a[0] && (a + t)[1..] == a[1..] + t;
      TokenLengthBeforeWhitespace(a[1..], t);
    } else {
      assert (a + t)[0] == a[0];
    }
  }

  /** Every whitespace character separates tokens: splitting at it splits
      the token list. */
  lemma {:induction false} SplitAtWhitespace(a: String, c: char, b: String)
    requires IsWhitespace(c)
    ensures Split(a + [c] + b) == Split(a) + Split(b)
    decreases |a|
  {
    var t := [c] + b;
    assert a + [c] + b == a + t;
    if a == [] {
      assert a + t == t && t[1..] == b;
    } else if IsWhitespace(a[0]) {
      assert (a + t)[0] == a[0] && (a + t)[1..] == a[1..] + t;
      SplitAtWhitespace(a[1..], c, b);
      assert a[1..] + [c] + b == a[1..] + t;
    } else {
      var s := a + t;
      TokenLengthBeforeWhitespace(a, t);
      var n := TokenLength(a);
      assert s[0] == a[0];
      assert s[..n] == a[..n];
      assert s[n..] == a[n..] + t;
      SplitAtWhitespace(a[n..], c, b);
      assert a[n..] + [c] + b == a[n..] + t;
    }
  }

  /** The characters of `s` that are not whitespace, in order. */
  function NonWhitespace(s: String): String {
    if s == [] then []
    else (if IsWhitespace(s[0]) then [] else [s[0]]) + NonWhitespace(s[1..])
  }

  function Flatten(ws: seq<String>): String {
    if ws == [] then [] else ws[0] + Flatten(ws[1..])
  }

  lemma {:induction false} NonWhitespaceConcat(a: String, b: String)
    ensures NonWhitespace(a + b) == NonWhitespace(a) + NonWhitespace(b)
    decreases |a|
  {
    if a == [] {
      assert a + b == b;
    } else {
      assert (a + b)[1..] == a[1..] + b;
      NonWhitespaceConcat(a[1..], b);
    }
  }

  lemma {:induction false} NonWhitespaceOfWord(w: String)
    requires forall i :: 0 <= i < |w| ==> !IsWhitespace(w[i])
    ensures NonWhitespace(w) == w
    decreases |w|
  {
    if w != [] {
      NonWhitespaceOfWord(w[1..]);
    }
  }

  /** The tokens, read one after the other, are exactly the non-whitespace
      characters of the input: splitting loses and reorders nothing. */
  lemma {:induction false} SplitCoversText(s: String)
    ensures Flatten(Split(s)) == NonWhitespace(s)
    decreases |s|
  {
    if s != [] {
      if IsWhitespace(s[0]) {
        SplitCoversText(s[1..]);
      } else {
        var n := TokenLength(s);
        assert s == s[..n] + s[n..];
        NonWhitespaceConcat(s[..n], s[n..]);
        NonWhitespaceOfWord(s[..n]);
        SplitCoversText(s[n..]);
        assert Split(s) == [s[..n]] + Split(s[n..]);
      }
    }
  }
}
