# German vocabulary filter: a Dafny model

`german_tutor.py` is a small Streamlit app for German learners. It reads the
text of a PDF (page by page) or of a photo (by OCR). It then lists the
"vocabulary words" of that text with their frequencies, most frequent first.
This project models the deterministic core of the app:

- `clean_and_count(text, min_len)`, which does four things:
  - it deletes every character that is neither a German letter (a-z, A-Z,
    ä ö ü Ä Ö Ü ß) nor whitespace;
  - it splits the text on whitespace;
  - it keeps a token when its lower-case form has at least `min_len`
    characters, is not a stop word and is not numeric;
  - it returns `Counter(kept).most_common()`.
- `STOP_WORDS`, the 46 German function words that are never reported.
- The page loop of `extract_text_from_pdf`. It appends every page text that
  is present and non-empty, followed by a line feed.

The modules follow the pipeline:

- `Text` covers the character classes and lower-casing on the German
  alphabet. It also holds `Strip` (the `re.sub` deletion) and `Split` (the
  whitespace split).
- `StopWords` holds the stop-word set.
- `Occurrences` holds the number of occurrences of a word and the position
  of its first occurrence.
- `Ranking` holds the stable descending sort by count that
  `most_common()` performs.
- `Counting` models `Counter` as an insertion-ordered dictionary of counts.
  It holds `Tally` and `MostCommon`.
- `Vocabulary` holds the token filter and `CleanAndCount`.
- `Pages` holds the document-text assembly and the extraction loop.
- `Examples` and `ExampleWords` hold worked examples proved from the
  general contracts.

Counting keys on the original spelling of each token, as the program does.
It does not key on the lower-case form. So "Haus" and "haus" are two
reported words (`Examples.CaseSensitiveExample`). Ties in count are listed
in order of first occurrence, among the kept tokens and equally among all
tokens of the text. This follows from the
`Counter` keeping its keys in insertion order and Python's sort being
stable.

## Model

| member | source | states |
|---|---|---|
| Text.LowerChar | german_tutor.py:55 | An upper-case German letter becomes its own lower-case letter: A-Z the letter of a-z at the same alphabet position, Ä, Ö, Ü the matching umlaut. Every other character, ß included, is left as it is. |
| Text.Lower | german_tutor.py:55 | Lower-casing keeps the length and works position by position: each upper-case letter becomes its lower-case letter and every other character stays. No upper-case letter is left, and a string of German letters stays one. |
| Text.LowerIdempotent | german_tutor.py:55 | Lower-casing twice gives the same result as lower-casing once. |
| Text.Strip | german_tutor.py:50 | The cleaned text is no longer than the input. It holds only German letters and whitespace. |
| Text.StripCountsCharacters | german_tutor.py:50 | Every German letter and whitespace character survives as often as it occurred. Every other character is deleted. |
| Text.StripConcat | german_tutor.py:50 | Cleaning distributes over concatenation. |
| Text.StripIdentity | german_tutor.py:50 | Cleaning changes a text exactly when it holds a character outside the kept class. |
| Text.StripIdempotent | german_tutor.py:50 | Cleaning an already cleaned text changes nothing. |
| Text.Split | german_tutor.py:51 | Every token is non-empty and free of whitespace. Every token is made of characters of the input. |
| Text.SplitJoinSpaced | german_tutor.py:51 | Splitting words joined by single spaces gives back those words. |
| Text.SplitOfToken | german_tutor.py:51 | A non-empty word without whitespace splits into itself alone. |
| Text.SplitAtWhitespace | german_tutor.py:51 | Splitting at a whitespace character splits the parts on either side separately: the tokens of the whole are those of the left part followed by those of the right part. |
| Text.SplitCoversText | german_tutor.py:51 | The tokens, read in order, are exactly the non-whitespace characters of the input. Nothing is lost or reordered. |
| Occurrences.CountIsMultiplicity | german_tutor.py:61 | The number of occurrences of a word is its multiplicity in the multiset of the words. |
| Occurrences.CountPositive | german_tutor.py:61 | A word has a positive count exactly when it occurs. |
| Occurrences.FirstIndex | german_tutor.py:61 | The result is the position of the first occurrence of the word, or the length when the word does not occur. |
| Occurrences.FirstIndexAppend | german_tutor.py:61 | Appending a word does not move an earlier first occurrence. A new word's first occurrence is at the end. |
| Ranking.Insert | german_tutor.py:61 | Insertion adds exactly the one entry: the result is the input plus that entry, as a multiset. |
| Ranking.InsertSorted | german_tutor.py:61 | Inserting into a list sorted by descending count keeps it sorted. |
| Ranking.SortByCount | german_tutor.py:61 | The sort is a permutation of its input, and counts never increase along the result. |
| Ranking.SortByCountIsStable | german_tutor.py:61 | When the entries come in first-occurrence order, entries with equal counts keep that order after sorting. |
| Ranking.SameEntriesSameWords | german_tutor.py:61 | Two permutations of one list hold the same entries and the same words. |
| Ranking.DistinctWordsCardinality | german_tutor.py:61 | A list with pairwise different words has as many distinct words as entries. |
| Ranking.RankedWordsDistinct | german_tutor.py:61 | In a strictly ranked list where each word always carries the same count, no word appears twice. |
| Ranking.SumCountsSort | german_tutor.py:61 | Sorting keeps the total of the counts. |
| Counting.Counter.Add | german_tutor.py:61 | Counting a word raises its count by one. A new word is appended to the keys with count one. All other counts and keys are unchanged. |
| Counting.AddCountsOccurrences | german_tutor.py:61 | If a counter holds exactly the words of a sequence with their occurrence counts, it still does so after counting one more word appended to that sequence. |
| Counting.AddKeepsFirstOccurrenceOrder | german_tutor.py:61 | Counting one more word keeps the counter's keys in order of first occurrence. |
| Counting.Tally | german_tutor.py:61 | The counter's keys are exactly the words of the input, each with its number of occurrences. The keys are in order of first occurrence. |
| Counting.TallyCountsEveryWord | german_tutor.py:61 | The counts add up to the number of words counted. |
| Counting.TallyItems | german_tutor.py:61 | The items list each word of the input once, with a positive count equal to its occurrences, in first-occurrence order. |
| Counting.MostCommon | german_tutor.py:61 | The words listed are exactly the input's words, each once, with its number of occurrences. The list is ordered by count descending, ties by first occurrence. The counts sum to the input's length. |
| Vocabulary.Tokens | german_tutor.py:50-51 | Every token is non-empty and made of German letters only. |
| Vocabulary.Kept | german_tutor.py:53-58 | A token is in the kept list exactly when it is a token and passes the length, stop-word and digit tests. |
| Vocabulary.KeptCount | german_tutor.py:53-58 | A passing word is kept as often as it occurs among the tokens. A failing word is never kept. |
| Vocabulary.KeptConcat | german_tutor.py:53-58 | Filtering distributes over concatenation: the kept tokens of two runs of tokens are those of the first run followed by those of the second. |
| Vocabulary.KeptFirstOccurrenceOrder | german_tutor.py:53-58 | Filtering keeps the relative order of first occurrences: of two passing tokens, one first occurs before the other among the kept tokens exactly when it does among all tokens. |
| Vocabulary.RankedOnTokens | german_tutor.py:53-61 | A list ranked against the kept tokens, whose words all pass the filter, is also ranked against all tokens: ties are in order of first occurrence in the text. |
| Vocabulary.RankingFollowsTokens | german_tutor.py:53-61 | The ranking of the kept tokens is ordered by count descending, ties by first occurrence among all tokens. |
| Vocabulary.KeptEverything | german_tutor.py:53-58 | When every token passes the tests, the kept list is the token list unchanged. |
| Vocabulary.RankingOfKept | german_tutor.py:53-61 | Ranking the kept tokens reports exactly the passing tokens, each counted over all tokens. |
| Vocabulary.RankedEntriesOfText | german_tutor.py:47-61 | Every reported entry has a positive count equal to its occurrences among the text's tokens. Its word has at least `min_len` German letters, is no stop word once lower-cased, and is not numeric. |
| Vocabulary.CleanAndCount | german_tutor.py:47-61 | A word is reported exactly when it is a token that passes the filter. Each reported word carries its positive number of occurrences, has at least `min_len` characters, uses only German letters, and is neither a stop word nor numeric. |
| Vocabulary.CleanAndCountOrder | german_tutor.py:61 | Each word is reported once. The report is ordered by count descending, ties by first occurrence among the kept tokens and equally among all tokens of the text. The counts add up to the number of kept tokens. |
| Vocabulary.DigitTestNeverFires | german_tutor.py:57 | No token is numeric after cleaning. So a token is kept exactly when it passes the length and stop-word tests. |
| Vocabulary.StopWordsNeverReported | german_tutor.py:57 | A word whose lower-case form is a stop word is never reported, whatever its capitalisation, the text or the minimum length. |
| Examples.HausBaumExample | german_tutor.py:47-61 | "Haus Baum Haus Baum Haus" with minimum length 4 yields [("Haus", 3), ("Baum", 2)]. |
| Examples.CaseSensitiveExample | german_tutor.py:58 | "Haus haus Haus" with minimum length 4 yields [("Haus", 2), ("haus", 1)]. The two spellings are counted apart. |
| Examples.DieAndFuerNeverReported | german_tutor.py:13-19 | "Die" and "für" are reported for no text and no minimum length. |
| Pages.ConcatPagesEmpty | german_tutor.py:31-34 | The document text is empty exactly when no page has text. |
| Pages.ConcatPagesAppend | german_tutor.py:31-34 | The text of two runs of pages is the text of the first run followed by that of the second. |
| Pages.ConcatPagesEndsWithLineFeed | german_tutor.py:34 | A non-empty document text ends with a line feed. |
| Pages.ConcatPagesAround | german_tutor.py:31-34 | The document text is the text of the pages before any one page, then that page's share, then the text of the pages after it. |
| Pages.PageTextInPlace | german_tutor.py:31-34 | A page with text appears, followed by a line feed, between the texts of the pages before and after it. |
| Pages.ExtractText | german_tutor.py:25-38 | The loop builds exactly the concatenation of the page contributions in page order. The result is empty exactly when no page has text. |

## Left out

- Reading a PDF (`pdfplumber`) is outside the model. Each page arrives as its
  text, or as `None` when no text could be read from it. The progress bar is
  left out as well.
- `extract_text_from_image` (OCR with Tesseract) is a call into a foreign
  library and is not modelled.
- The Streamlit interface is not modelled. This covers the sidebar, the
  `min_len` slider, the file upload and the editable result table with its
  "В словарь" checkbox column (german_tutor.py:109-123).
  `min_len` is any integer in the model; the slider's range is a matter of
  the interface only.
- Vocabulary.CleanAndCount: whitespace is the fixed set space, tab, line
  feed, vertical tab, form feed and carriage return. Python's `\s`
  (german_tutor.py:50) and `str.split()` (german_tutor.py:51) also treat
  other characters as whitespace, among them U+00A0 (no-break space) and
  U+001C to U+001F. The model's `Strip` deletes those characters, while the
  program keeps them and splits on them. So "Haus\u00A0Baum" is the one token
  "HausBaum" in the model and the two tokens "Haus" and "Baum" in the
  program. The model agrees with the program on texts without them.
- Text.Lower: lower-casing is modelled on the German alphabet only. This is
  exact for the filter, because cleaning leaves only German letters in a
  token. Python's `lower()` on other characters is not modelled.
- Text.IsAllDigits: `isdigit` is modelled as "non-empty and ASCII digits
  only". Python's `isdigit` also accepts other Unicode digits. This makes no
  difference to the filter: tokens hold letters only, so the test never
  fires (`Vocabulary.DigitTestNeverFires`).
- The `Counter` is modelled as a list of keys in insertion order plus a map
  of counts. `most_common()` is modelled as a stable insertion sort by
  descending count. That is the order Python's stable `sorted(...,
  reverse=True)` produces, not its algorithm.
