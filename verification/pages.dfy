/** Assembly of a document's text from the texts of its pages. Reading a
    page's text is outside the model: each page arrives as its text, or as
    nothing when no text could be read from it. */
module Pages {
  import opened Text

  datatype Option<T> = None | Some(value: T)

  /** A page contributes when it has text and that text is not empty. */
  predicate HasText(page: Option<String>) {
    page.Some? && page.value != []
  }

  /** What one page adds to the document text: its text and a line feed,
      or nothing. */
  function Contribution(page: Option<String>): (r: String)
    ensures HasText(page) ==> r == page.value + "\n"
    ensures !HasText(page) ==> r == []
  {
    match page
    case Some(text) => if text != [] then text + "\n" else []
    case None => []
  }

  /** The document text: the contributions of the pages, in page order. */
  function ConcatPages(pages: seq<Option<String>>): String {
    if pages == [] then []
    else Contribution(pages[0]) + ConcatPages(pages[1..])
  }

  /** The document text is empty exactly when no page has text. */
  lemma {:induction false} ConcatPagesEmpty(pages: seq<Option<String>>)
    ensures ConcatPages(pages) == [] <==> forall i :: 0 <= i < |pages| ==> !HasText(pages[i])
    decreases |pages|
  {
    if pages != [] {
      ConcatPagesEmpty(pages[1..]);
      assert forall i :: 0 < i < |pages| ==> pages[1..][i - 1] == pages[i];
    }
  }

  /** Reading the pages in two batches gives the same text as reading them at once. */
  lemma {:induction false} ConcatPagesAppend(a: seq<Option<String>>, b: seq<Option<String>>)
    ensures ConcatPages(a + b) == ConcatPages(a) + ConcatPages(b)
    decreases |a|
  {
    if a == [] {
      assert a + b == b;
    } else {
      assert (a + b)[1..] == a[1..] + b;
      ConcatPagesAppend(a[1..], b);
    }
  }

  /** A non-empty document text ends with a line feed. */
  lemma {:induction false} ConcatPagesEndsWithLineFeed(pages: seq<Option<String>>)
    ensures ConcatPages(pages) != [] ==> ConcatPages(pages)[|ConcatPages(pages)| - 1] == '\n'
    decreases |pages|
  {
    if pages != [] {
      ConcatPagesEndsWithLineFeed(pages[1..]);
    }
  }

  /** A single page contributes exactly its own share. */
  lemma ConcatPagesSingle(page: Option<String>)
    ensures ConcatPages([page]) == Contribution(page)
  {
    assert [page][1..] == [];
  }

  /** The document text splits around any one page. */
  lemma ConcatPagesAround(pages: seq<Option<String>>, i: nat)
    requires i < |pages|
    ensures ConcatPages(pages)
         == ConcatPages(pages[..i]) + (Contribution(pages[i]) + ConcatPages(pages[i + 1..]))
  {
    var w := pages[i..];
    assert w[0] == pages[i] && w[1..] == pages[i + 1..];
    assert ConcatPages(w) == Contribution(pages[i]) + ConcatPages(pages[i + 1..]);
    assert pages == pages[..i] + w;
    ConcatPagesAppend(pages[..i], w);
  }

  /** A page with text appears in the document text, followed by a line
      feed, between the texts of the pages before and after it. */
  lemma PageTextInPlace(pages: seq<Option<String>>, i: nat)
    requires i < |pages| && HasText(pages[i])
    ensures ConcatPages(pages)
         == ConcatPages(pages[..i]) + (pages[i].value + "\n") + ConcatPages(pages[i + 1..])
  {
    ConcatPagesAround(pages, i);
    var before, share, after := ConcatPages(pages[..i]), pages[i].value + "\n", ConcatPages(pages[i + 1..]);
    assert before + (share + after) == before + share + after;
  }

  /** The extraction loop: walks the pages in order and appends each
      non-empty page text followed by a line feed. */
  method ExtractText(pages: seq<Option<String>>) returns (fullText: String)
    ensures fullText == ConcatPages(pages)
    ensures fullText == [] <==> forall i :: 0 <= i < |pages| ==> !HasText(pages[i])
  {
    fullText := "";
    for i := 0 to |pages|
      invariant fullText == ConcatPages(pages[..i])
    {
      var extracted := pages[i];
      assert pages[..i + 1] == pages[..i] + [extracted];
      ConcatPagesAppend(pages[..i], [extracted]);
      ConcatPagesSingle(extracted);
      if extracted.Some? && extracted.value != [] {
        fullText := fullText + extracted.value + "\n";
      }
    }
    assert pages[..|pages|] == pages;
    ConcatPagesEmpty(pages);
  }
}
