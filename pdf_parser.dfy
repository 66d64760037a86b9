/**
 * Text assembly for an uploaded PDF. The PDF library is abstracted away: a
 * document is the sequence of its pages, each page the sequence of the
 * strings of its text items.
 */
module PdfParser {
  import opened Strings

  /** The text of one page: its item strings joined by a single space. */
  function PageText(items: seq<string>): string {
    Join(items, " ")
  }

  /** The page texts of `pages`, in page order. */
  function PageTexts(pages: seq<seq<string>>): (texts: seq<string>)
    ensures |texts| == |pages|
    decreases |pages|
  {
    if |pages| == 0 then [] else PageTexts(pages[..|pages| - 1]) + [PageText(pages[|pages| - 1])]
  }

  /** The accumulator after pages 1..|pages| have each appended their text and a blank line. */
  function Accumulated(pages: seq<seq<string>>): (acc: string)
    decreases |pages|
  {
    if |pages| == 0 then "" else Accumulated(pages[..|pages| - 1]) + PageText(pages[|pages| - 1]) + "\n\n"
  }

  /** The text extracted from `pages`: the trimmed accumulation. */
  function PdfText(pages: seq<seq<string>>): (text: string)
    ensures |text| <= |Accumulated(pages)|
    ensures text == [] || (!IsJsWhitespace(text[0]) && !IsJsWhitespace(text[|text| - 1]))
  {
    Trim(Accumulated(pages))
  }

  /** extractTextFromPDF: visits pages 1..numPages in order, then trims. */
  method ExtractTextFromPdf(pages: seq<seq<string>>) returns (text: string)
    ensures text == PdfText(pages)
    ensures text == [] || (!IsJsWhitespace(text[0]) && !IsJsWhitespace(text[|text| - 1]))
  {
    var fullText := "";
    for pageNumber := 1 to |pages| + 1
      invariant fullText == Accumulated(pages[..pageNumber - 1])
    {
      assert pages[..pageNumber][..pageNumber - 1] == pages[..pageNumber - 1];
      var pageText := Join(pages[pageNumber - 1], " ");
      fullText := fullText + pageText + "\n\n";
    }
    assert pages[..|pages|] == pages;
    text := Trim(fullText);
  }

  /** A document with no pages yields the empty string. */
  lemma NoPagesNoText()
    ensures PdfText([]) == ""
  {
  }

  /** The accumulation of two runs of pages is the accumulation of the first followed by that of the second. */
  lemma {:induction false} AccumulatedAppend(first: seq<seq<string>>, second: seq<seq<string>>)
    ensures Accumulated(first + second) == Accumulated(first) + Accumulated(second)
    decreases |second|
  {
    if |second| == 0 {
      assert first + second == first;
    } else {
      var n := |second| - 1;
      assert (first + second)[..|first + second| - 1] == first + second[..n];
      AccumulatedAppend(first, second[..n]);
    }
  }

  /** Every page contributes its text and a blank line, in page order. */
  lemma {:induction false} AccumulatedIsJoin(pages: seq<seq<string>>)
    requires |pages| > 0
    ensures Accumulated(pages) == Join(PageTexts(pages), "\n\n") + "\n\n"
    decreases |pages|
  {
    var n := |pages| - 1;
    if n == 0 {
      assert pages[..0] == [];
      assert PageTexts(pages) == [PageText(pages[0])];
    } else {
      AccumulatedIsJoin(pages[..n]);
      JoinSnoc(PageTexts(pages[..n]), PageText(pages[n]), "\n\n");
    }
  }

  /**
   * The extracted text is the page texts separated by blank lines, trimmed:
   * the blank line after the last page never survives.
   */
  lemma PagesSeparatedByBlankLines(pages: seq<seq<string>>)
    requires |pages| > 0
    ensures PdfText(pages) == Trim(Join(PageTexts(pages), "\n\n"))
  {
    var joined := Join(PageTexts(pages), "\n\n");
    var blank := "\n\n";
    AccumulatedIsJoin(pages);
    assert Accumulated(pages) == joined + blank;
    assert AllWhitespace(blank);
    TrimIgnoresTrailingWhitespace(joined, blank);
  }
}
