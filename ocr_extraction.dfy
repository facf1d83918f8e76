/**
 * The page-by-page OCR aggregation of AI_services.py
 * (`AIServices.extract_with_mistrail_ocr` and `_extract_title`).
 *
 * Reading each page image, encoding it and sending it to the OCR provider is
 * reduced to the oracle `ocr(k, path)`: the markdown text of page k (1-based),
 * whose image is at path, or None when any of those steps raised. The moment
 * of completion (`processed_date`) is a parameter, since it comes from the clock.
 */
module OcrExtraction {
  import opened Wrappers
  import opened Strings

  /** A graphic detected on a page. */
  datatype Graphic = Graphic(page: nat, description: string, kind: string)

  /** The "metadata" dictionary of a result. */
  datatype Metadata = Metadata(
    filename: string,
    pages: nat,
    extractionMethod: string,
    processedDate: string,
    title: string)

  /** The dictionary the extraction returns: "text", "graphics" and "metadata". */
  datatype Extraction = Extraction(text: string, graphics: seq<Graphic>, metadata: Metadata)

  /** The words whose presence in the lower-cased page text counts as a graphic. */
  const Keywords: seq<string> := ["chart", "graph", "diagram", "tabla", "gr\U{E1}fico"]
  const ErrorPlaceholder: string := "Error al procesar la imagen."
  const GraphicDescription: string := "grafico detectado en la pagina"
  const GraphicType: string := "detected_in_text"
  const Untitled: string := "Sin t\U{ED}tulo"
  const MethodTag: string := "mistral_ocr"
  const TitleLength: nat := 100

  /** The heading that opens the entry of page idx. */
  function Heading(idx: nat): string
  {
    "\n\n## Pagina " + NatToString(idx) + "\n\n"
  }

  /** The entry of page idx: its heading, then its OCR text or the error placeholder. */
  function PageEntry(idx: nat, outcome: Option<string>): string
  {
    Heading(idx) + (if outcome.Some? then outcome.value else ErrorPlaceholder)
  }

  /** Some keyword occurs in the lower-cased text. */
  predicate HasGraphicKeyword(text: string)
  {
    ContainsAny(Lower(text), Keywords)
  }

  /** The graphic record page idx contributes: one when its text was read and mentions a keyword, none otherwise. */
  function PageGraphics(idx: nat, outcome: Option<string>): seq<Graphic>
  {
    if outcome.Some? && HasGraphicKeyword(outcome.value) then [Graphic(idx, GraphicDescription, GraphicType)] else []
  }

  /** The entries of the pages at paths, in page order, as the loop appends them. */
  function Entries(paths: seq<string>, ocr: (nat, string) -> Option<string>): (entries: seq<string>)
    ensures |entries| == |paths|
  {
    if |paths| == 0 then []
    else Entries(paths[..|paths| - 1], ocr) + [PageEntry(|paths|, ocr(|paths|, paths[|paths| - 1]))]
  }

  /** The graphic records of the pages at paths, in page order, as the loop appends them. */
  function GraphicsOf(paths: seq<string>, ocr: (nat, string) -> Option<string>): seq<Graphic>
  {
    if |paths| == 0 then []
    else GraphicsOf(paths[..|paths| - 1], ocr) + PageGraphics(|paths|, ocr(|paths|, paths[|paths| - 1]))
  }

  /**
   * `_extract_title`: the first line of the text cut to 100 characters, or
   * "Sin título" for an empty text.
   */
  function ExtractTitle(text: string): (title: string)
    ensures text == "" ==> title == Untitled
    ensures text != "" ==> title <= text && '\n' !in title && |title| <= TitleLength
    ensures text != "" && |title| < TitleLength ==> |title| == |text| || text[|title|] == '\n'
  {
    if text != "" then TakeAtMost(FirstLine(text), TitleLength) else Untitled
  }

  /** The merged text: the entries joined with line feeds. */
  function OcrText(paths: seq<string>, ocr: (nat, string) -> Option<string>): string
  {
    JoinWith("\n", Entries(paths, ocr))
  }

  /** The dictionary the extraction returns for these pages, oracle and completion time. */
  function OcrResult(paths: seq<string>, filename: string, processedDate: string, ocr: (nat, string) -> Option<string>)
    : Extraction
  {
    var allText := Entries(paths, ocr);
    Extraction(
      OcrText(paths, ocr),
      GraphicsOf(paths, ocr),
      Metadata(filename, |paths|, MethodTag, processedDate, ExtractTitle(if |allText| > 0 then allText[0] else "")))
  }

  /** Processing page idx appends its entry and its graphic records to those of the earlier pages. */
  lemma NextPage(paths: seq<string>, ocr: (nat, string) -> Option<string>, idx: nat)
    requires 1 <= idx <= |paths|
    ensures Entries(paths[..idx], ocr) == Entries(paths[..idx - 1], ocr) + [PageEntry(idx, ocr(idx, paths[idx - 1]))]
    ensures GraphicsOf(paths[..idx], ocr) == GraphicsOf(paths[..idx - 1], ocr) + PageGraphics(idx, ocr(idx, paths[idx - 1]))
  {
    assert paths[..idx][..idx - 1] == paths[..idx - 1];
  }

  /**
   * `extract_with_mistrail_ocr`: asks the provider for each page in order, appends
   * one entry per page (the placeholder when the call fails, without stopping)
   * and a graphic record for each read page that mentions a keyword.
   */
  method ExtractWithMistralOcr(imagePaths: seq<string>, filename: string, processedDate: string,
                               ocr: (nat, string) -> Option<string>)
    returns (result: Extraction)
    ensures result == OcrResult(imagePaths, filename, processedDate, ocr)
    ensures result.metadata.filename == filename && result.metadata.pages == |imagePaths|
    ensures result.metadata.extractionMethod == MethodTag && result.metadata.processedDate == processedDate
  {
    var allText: seq<string> := [];
    var graphicsFound: seq<Graphic> := [];
    var idx := 1;
    while idx <= |imagePaths|
      invariant 1 <= idx <= |imagePaths| + 1
      invariant allText == Entries(imagePaths[..idx - 1], ocr)
      invariant graphicsFound == GraphicsOf(imagePaths[..idx - 1], ocr)
    {
      var imagePath := imagePaths[idx - 1];
      var response := ocr(idx, imagePath);
      match response {
        case Some(extractText) =>
          allText := allText + ["\n\n## Pagina " + NatToString(idx) + "\n\n" + extractText];
          if HasGraphicKeyword(extractText) {
            graphicsFound := graphicsFound + [Graphic(idx, GraphicDescription, GraphicType)];
          }
        case None =>
          allText := allText + ["\n\n## Pagina " + NatToString(idx) + "\n\n" + ErrorPlaceholder];
      }
      NextPage(imagePaths, ocr, idx);
      idx := idx + 1;
    }
    assert imagePaths[..|imagePaths|] == imagePaths;
    result := Extraction(
      JoinWith("\n", allText),
      graphicsFound,
      Metadata(filename, |imagePaths|, MethodTag, processedDate, ExtractTitle(if |allText| > 0 then allText[0] else "")));
  }

  // ---------------------------------------------------------------------------
  // Properties of the aggregation
  // ---------------------------------------------------------------------------

  /**
   * One entry per page, in input order: entry k - 1 is page k's heading followed
   * by what the provider returned for page k, or by the placeholder when that
   * call failed; no other page's outcome affects it.
   */
  lemma {:induction false} EntriesAt(paths: seq<string>, ocr: (nat, string) -> Option<string>, k: nat)
    requires 1 <= k <= |paths|
    ensures Entries(paths, ocr)[k - 1] == PageEntry(k, ocr(k, paths[k - 1]))
  {
    if k < |paths| {
      var init := paths[..|paths| - 1];
      EntriesAt(init, ocr, k);
      assert init[k - 1] == paths[k - 1];
    }
  }

  /**
   * The graphics list holds at most one record per page: every record carries
   * a page number in 1..|paths| and the fixed description and type, and the
   * page numbers strictly ascend.
   */
  lemma {:induction false} GraphicsWellFormed(paths: seq<string>, ocr: (nat, string) -> Option<string>)
    ensures var gs := GraphicsOf(paths, ocr);
      |gs| <= |paths| &&
      (forall g :: g in gs ==> 1 <= g.page <= |paths| && g.description == GraphicDescription && g.kind == GraphicType) &&
      (forall i, j :: 0 <= i < j < |gs| ==> gs[i].page < gs[j].page)
  {
    if |paths| > 0 {
      GraphicsWellFormed(paths[..|paths| - 1], ocr);
    }
  }

  /** Some graphic record of gs is stamped with page k. */
  ghost predicate HasGraphicOn(gs: seq<Graphic>, k: nat)
  {
    exists g :: g in gs && g.page == k
  }

  /** The provider returned the text of page k, and that text mentions a keyword. */
  ghost predicate ReadWithKeyword(paths: seq<string>, ocr: (nat, string) -> Option<string>, k: nat)
  {
    1 <= k <= |paths| && ocr(k, paths[k - 1]).Some? && HasGraphicKeyword(ocr(k, paths[k - 1]).value)
  }

  /**
   * Page k has a graphic record exactly when the provider returned its text and
   * that text, lower-cased, contains one of the keywords.
   */
  lemma {:induction false} GraphicsIff(paths: seq<string>, ocr: (nat, string) -> Option<string>, k: nat)
    ensures HasGraphicOn(GraphicsOf(paths, ocr), k) <==> ReadWithKeyword(paths, ocr, k)
  {
    if |paths| > 0 {
      var n := |paths|;
      var init := paths[..n - 1];
      var gi := GraphicsOf(init, ocr);
      var last := PageGraphics(n, ocr(n, paths[n - 1]));
      GraphicsIff(init, ocr, k);
      assert GraphicsOf(paths, ocr) == gi + last;
      assert HasGraphicOn(gi + last, k) <==> HasGraphicOn(gi, k) || HasGraphicOn(last, k);
      assert HasGraphicOn(last, k) <==> k == n && ReadWithKeyword(paths, ocr, n);
      if 1 <= k < n {
        assert init[k - 1] == paths[k - 1];
        assert ReadWithKeyword(init, ocr, k) <==> ReadWithKeyword(paths, ocr, k);
      }
    }
  }

  /** The merged text holds the entry of page k + 1 at Offset(k). */
  lemma OcrTextHoldsEntry(paths: seq<string>, ocr: (nat, string) -> Option<string>, k: nat)
    requires k < |paths|
    ensures OccursAt(OcrText(paths, ocr), PageEntry(k + 1, ocr(k + 1, paths[k])), Offset("\n", Entries(paths, ocr), k))
  {
    EntriesAt(paths, ocr, k + 1);
    JoinPart("\n", Entries(paths, ocr), k);
  }

  /** Exactly one line feed separates the entry of page k + 1 from the next page's. */
  lemma OcrTextSeparatesEntries(paths: seq<string>, ocr: (nat, string) -> Option<string>, k: nat)
    requires k + 1 < |paths|
    ensures OccursAt(OcrText(paths, ocr), "\n", Offset("\n", Entries(paths, ocr), k) + |PageEntry(k + 1, ocr(k + 1, paths[k]))|)
    ensures Offset("\n", Entries(paths, ocr), k) + |PageEntry(k + 1, ocr(k + 1, paths[k]))| + 1
         == Offset("\n", Entries(paths, ocr), k + 1)
  {
    EntriesAt(paths, ocr, k + 1);
    JoinSeparator("\n", Entries(paths, ocr), k);
  }

  /** Entries appear in the merged text in page order: page i's entry ends before page j's begins. */
  lemma OcrTextInPageOrder(paths: seq<string>, ocr: (nat, string) -> Option<string>, i: nat, j: nat)
    requires i < j < |paths|
    ensures Offset("\n", Entries(paths, ocr), i) + |PageEntry(i + 1, ocr(i + 1, paths[i]))|
          < Offset("\n", Entries(paths, ocr), j)
  {
    EntriesAt(paths, ocr, i + 1);
    OffsetsIncrease("\n", Entries(paths, ocr), i, j);
  }

  /**
   * A page whose provider call fails still gets its entry, the heading followed
   * by the placeholder, and no graphic record; the pages after it are handled
   * as if it had succeeded (EntriesAt and GraphicsIff depend on page k alone).
   */
  lemma FailedPage(paths: seq<string>, ocr: (nat, string) -> Option<string>, k: nat)
    requires 1 <= k <= |paths| && ocr(k, paths[k - 1]) == None
    ensures Entries(paths, ocr)[k - 1] == Heading(k) + ErrorPlaceholder
    ensures !HasGraphicOn(GraphicsOf(paths, ocr), k)
  {
    EntriesAt(paths, ocr, k);
    GraphicsIff(paths, ocr, k);
  }

  /**
   * With no pages the text is empty, there are no graphics and the title is
   * "Sin título"; with at least one page the title is always empty, because
   * the first entry starts with a line feed.
   */
  lemma OcrTitle(paths: seq<string>, filename: string, processedDate: string, ocr: (nat, string) -> Option<string>)
    ensures var r := OcrResult(paths, filename, processedDate, ocr);
      if |paths| == 0 then r.text == "" && r.graphics == [] && r.metadata.title == Untitled
      else r.metadata.title == ""
  {
    if |paths| > 0 {
      EntriesAt(paths, ocr, 1);
      var first := Entries(paths, ocr)[0];
      assert first[0] == '\n';
    }
  }

  /** The keyword test is the substring test of Python: some keyword occurs at some position of the lower-cased text. */
  lemma HasGraphicKeywordIff(text: string)
    ensures HasGraphicKeyword(text) <==> SomeOccurs(Lower(text), Keywords)
  {
    ContainsAnyIff(Lower(text), Keywords);
  }

  /** The test ignores case: lower-casing the text first changes nothing. */
  lemma HasGraphicKeywordIgnoresCase(text: string)
    ensures HasGraphicKeyword(Lower(text)) == HasGraphicKeyword(text)
  {
    LowerIdempotent(text);
  }

  /** Accented capitals are lowered too, so "GRÁFICO" counts as a graphic. */
  lemma AccentedCapitalsDetected()
    ensures HasGraphicKeyword("GR\U{C1}FICO")
  {
    var low := Lower("GR\U{C1}FICO");
    assert low[0] == 'g' && low[1] == 'r' && low[2] == '\U{E1}' && low[3] == 'f';
    assert low[4] == 'i' && low[5] == 'c' && low[6] == 'o';
    assert low == Keywords[4];
    assert OccursAt(low, Keywords[4], 0);
    ContainsAnyIff(low, Keywords);
  }

  /** The test looks for substrings, not words: a page that only says "paragraph" gets a graphic record. */
  lemma SubstringNotWord()
    ensures HasGraphicKeyword("paragraph")
  {
    var low := Lower("paragraph");
    assert low[4] == 'g' && low[5] == 'r' && low[6] == 'a' && low[7] == 'p' && low[8] == 'h';
    assert low[4..9] == Keywords[1];
    assert OccursAt(low, Keywords[1], 4);
    ContainsAnyIff(low, Keywords);
  }
}
