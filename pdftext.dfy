/**
 * Text extraction from a PDF. The PDF library itself is not modelled: a
 * document is what the extractor observes of it, namely whether it opens and,
 * for each page in order, the page's text or a failure of that page.
 */
module PdfText {
  import opened Wrappers

  /** `opens` is false when opening the file raises (missing, corrupt,
      unsupported); a page is `None` when reading its text raises. */
  datatype Pdf = Pdf(opens: bool, pages: seq<Option<string>>)

  predicate AllPagesRead(pages: seq<Option<string>>) {
    forall i :: 0 <= i < |pages| ==> pages[i].Some?
  }

  /** The page texts joined with nothing in between, in page order. */
  function Concat(pages: seq<Option<string>>): (text: string)
    requires AllPagesRead(pages)
  {
    if pages == [] then "" else pages[0].value + Concat(pages[1..])
  }

  /** Joining is compatible with splitting the document anywhere. */
  lemma {:induction false} ConcatAppend(p: seq<Option<string>>, q: seq<Option<string>>)
    requires AllPagesRead(p) && AllPagesRead(q)
    ensures AllPagesRead(p + q)
    ensures Concat(p + q) == Concat(p) + Concat(q)
  {
    if p == [] {
      assert p + q == q;
    } else {
      assert (p + q)[1..] == p[1..] + q;
      ConcatAppend(p[1..], q);
    }
  }

  /** Each page's text appears in the joined text right after the texts of
      the pages before it. */
  lemma PageTextInPlace(pages: seq<Option<string>>, k: nat)
    requires AllPagesRead(pages) && k < |pages|
    ensures AllPagesRead(pages[..k])
    ensures var start := |Concat(pages[..k])|;
      start + |pages[k].value| <= |Concat(pages)|
      && Concat(pages)[start..start + |pages[k].value|] == pages[k].value
  {
    assert pages == pages[..k] + ([pages[k]] + pages[k + 1..]);
    ConcatAppend([pages[k]], pages[k + 1..]);
    ConcatAppend(pages[..k], [pages[k]] + pages[k + 1..]);
  }

  /** What extraction yields: the joined page texts, or "" when opening or
      any page fails, even after earlier pages were read. */
  function ExtractedText(pdf: Pdf): (text: string)
  {
    if pdf.opens && AllPagesRead(pdf.pages) then Concat(pdf.pages) else ""
  }

  /** A failure anywhere discards the text of every page. */
  lemma FailedPageDiscardsAll(pdf: Pdf, k: nat)
    requires k < |pdf.pages| && pdf.pages[k].None?
    ensures ExtractedText(pdf) == ""
  {
  }

  /** The page loop of the standalone script: append each page's text in
      turn; a failing page abandons the whole document. */
  method ExtractTextFromPdf(pdf: Pdf) returns (text: string)
    ensures text == ExtractedText(pdf)
  {
    if !pdf.opens {
      return "";
    }
    text := "";
    for i := 0 to |pdf.pages|
      invariant AllPagesRead(pdf.pages[..i])
      invariant text == Concat(pdf.pages[..i])
    {
      match pdf.pages[i]
      case None =>
        return "";
      case Some(pageText) =>
        assert pdf.pages[..i + 1] == pdf.pages[..i] + [pdf.pages[i]];
        ConcatAppend(pdf.pages[..i], [pdf.pages[i]]);
        text := text + pageText;
    }
    assert pdf.pages[..|pdf.pages|] == pdf.pages;
  }
}
