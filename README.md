# Page images and OCR aggregation, modelled in Dafny

This project models the two sequential cores of a document-ingestion service
that turns office documents into per-page images and then into one OCR text.

* **File conversion** (`file_converter.py`). `FileConverter.convert_to_images`
  dispatches on the declared file type: `"pdf"`, `"docx"` or `"pptx"`. Any
  other string is rejected. `_convert_pdf` renders each page of a PDF to
  `<output folder>/<base>_page_<k>.png`, with k counting from 1 in page order.
  `<base>` is the input's basename with its final extension removed.
  `_convert_docx` and `_convert_pptx` first export the document to
  `<output folder>/<base>.pdf` and then render that PDF.
* **OCR aggregation** (`AI_services.py`). `AIServices.extract_with_mistrail_ocr`
  walks the page images in order and asks the OCR provider for each page's
  text. For each page it appends an entry headed `## Pagina <k>`. When the call
  fails, the entry holds an error placeholder instead of text, and the loop
  goes on. A page whose lower-cased text mentions "chart", "graph", "diagram",
  "tabla" or "gráfico" also gets one graphic record. The result joins the
  entries with line feeds and adds metadata. The title comes from
  `_extract_title`, applied to the first entry.

The Dafny modules follow that structure:

* `Wrappers` (wrappers.dfy) holds `Option` and `Result`.
* `Strings` (strings.dfy) holds the Python string builtins the code uses:
  the decimal form of an int in an f-string, `sep.join`, `split("\n")[0]`,
  `s[:n]`, `lower()` and the substring test `k in s`.
* `PosixPath` (posix_path.dfy) holds `os.path.basename`, `os.path.splitext`
  and a two-part `os.path.join`, with POSIX semantics.
* `FileConversion` (file_converter.dfy) holds the class `FileConverter` and the
  naming functions.
* `OcrExtraction` (ocr_extraction.dfy) holds the extraction loop and its
  specification.

External calls become inputs:

* The OCR provider is the oracle `ocr(k, path)`. It returns the text of page
  k, or `None` when reading the image or calling the provider raised.
* The completion timestamp is the parameter `processedDate`.
* The PDF library is `pageCount(path)`: the page count, or `None` when the
  file cannot be opened.
* Word and PowerPoint automation is the flag `exported`: whether the
  intermediate PDF was written.

Properties proved:

* There is exactly one entry per page, in input order. Each entry is the
  page's heading followed by that page's text or by the placeholder. A failing
  page affects only its own entry.
* A page has a graphic record exactly when its text was read and, once
  lower-cased, contains a keyword. There is at most one record per page,
  records come in ascending page order, and there are never more records than
  pages.
* The merged text holds each entry at a computed offset. Exactly one line
  feed separates neighbouring entries, and entries appear in page order.
* With at least one page the title is always the empty string. The first
  entry starts with a line feed, so the first line of that entry is empty.
  With no pages the title is "Sin título".
* The dispatch accepts exactly the three lower-case tags.
* The k-th image path is the output folder joined with `<base>_page_<k>.png`.
  The paths of one rendering are pairwise distinct.
* A Word or PowerPoint file's images carry the original base name, as long as
  that name holds a character other than '.'. A path ending in '/' has an
  empty base name, so the intermediate path, the one a failed conversion
  reports, is `<output folder>/.pdf`.

## Model

| member | source | states |
|---|---|---|
| `Strings.NatToString` | file_converter.py:40 | the f-string rendering of a page number is a non-empty run of digits that starts with '0' only for 0 |
| `Strings.DigitsValueOfNatToString` | AI_services.py:35 | reading the rendered page number back gives the number: the rendering loses nothing |
| `Strings.NatToStringInjective` | file_converter.py:40 | different page numbers give different digit strings |
| `Strings.JoinLength` | AI_services.py:48 | a non-empty `"\n".join` is as long as its parts plus one separator between each two |
| `Strings.JoinPart` | AI_services.py:48 | in `sep.join(parts)` part i occurs at Offset(i), after the earlier parts and separators |
| `Strings.JoinSeparator` | AI_services.py:48 | exactly one separator stands between part i and part i + 1 of a join |
| `Strings.OffsetsIncrease` | AI_services.py:48 | with a non-empty separator, part i ends strictly before any later part begins |
| `Strings.FirstLine` | AI_services.py:61 | `t.split("\n")[0]` is a prefix of t with no line feed, ending at t's end or at its first line feed |
| `Strings.TakeAtMost` | AI_services.py:61 | `s[:n]` is the prefix of s of length min(n, len(s)) |
| `Strings.Lower` | AI_services.py:37 | `lower()` keeps the length and lowers each character on its own |
| `Strings.LowerIdempotent` | AI_services.py:37 | lowering twice is lowering once |
| `Strings.ContainsIff` | AI_services.py:37 | the substring test `k in s` holds exactly when k occurs at some position of s |
| `Strings.ContainsAnyIff` | AI_services.py:37 | `any(k in s for k in ks)` holds exactly when some k of ks occurs somewhere in s |
| `PosixPath.RFind` | file_converter.py:31 | `rfind` gives the last index holding the character, or -1 when there is none |
| `PosixPath.BasenameIsFinalComponent` | file_converter.py:31 | `basename` is the suffix after the last '/', and it holds no '/' |
| `PosixPath.SplitExtParts` | file_converter.py:31 | `splitext` only cuts its input in two: the extension is empty or one '.' with no other '.' or '/' after it, and it follows a name with a non-dot character |
| `PosixPath.SplitExtOfRootAndExt` | file_converter.py:31 | a '/'-free root with a non-dot character, followed by an extension like ".pdf", splits back into exactly that root and extension |
| `PosixPath.JoinEndsWithName` | file_converter.py:38-41 | `join(folder, name)` ends with name, and starts with folder unless name is absolute |
| `PosixPath.BasenameOfJoin` | file_converter.py:54-55 | the basename of `join(folder, name)` is name when name holds no '/' |
| `FileConversion.KindOf` | file_converter.py:18-25 | exactly "pdf", "docx" and "pptx" select a converter, each its own; every other string, "PDF" included, selects none |
| `FileConversion.StemOfBasename` | file_converter.py:31 | the base name is a prefix of the basename and holds no '/' |
| `FileConversion.StemOfJoin` | file_converter.py:54-55 | the base name of `join(folder, name)` is the splitext root of name |
| `FileConversion.StemOfDirectory` | file_converter.py:31 | a path ending in '/' has an empty base name |
| `FileConversion.LeadingDotNameHasNoExtension` | file_converter.py:31 | splitext leaves ".pdf" whole, because its only dot leads the name |
| `FileConversion.PagePathsAt` | file_converter.py:34-43 | the k-th path of a rendering (from 1) is the output folder joined with `<base>_page_<k>.png` |
| `FileConversion.PageImageNameInjective` | file_converter.py:38-41 | two image names with one base are equal only for equal page numbers |
| `FileConversion.JoinInjective` | file_converter.py:38-41 | joining one folder with two names that are both relative, or both absolute, gives equal paths only for equal names |
| `FileConversion.PageImageNamesDiffer` | file_converter.py:38-41 | the image paths of two different pages differ |
| `FileConversion.PagePathsDistinct` | file_converter.py:34-43 | the paths one rendering returns are pairwise distinct |
| `FileConversion.IntermediatePdfKeepsStem` | file_converter.py:54-79 | the intermediate `<folder>/<base>.pdf` has the original base name, when that name holds a non-dot character, so the images are named after the input |
| `FileConversion.IntermediatePdfOfEmptyStem` | file_converter.py:54-55 | for a path ending in '/' the intermediate PDF path, the one a failed Word or PowerPoint conversion reports, is `<folder>/.pdf`, whose base name is ".pdf" |
| `FileConversion.FileConverter.constructor` | file_converter.py:9-13 | the converter keeps the two folders it is given |
| `FileConversion.FileConverter.ConvertToImages` | file_converter.py:15-25 | "pdf", "docx" and "pptx" go to the PDF, Word and PowerPoint conversion; any other type fails with UnsupportedFileType |
| `FileConversion.FileConverter.ConvertPdf` | file_converter.py:27-45 | one path per page, in page order, the k-th being `<outputFolder>/<base>_page_<k>.png`; an unopenable PDF fails |
| `FileConversion.OfficeImagesNamedAfterInput` | file_converter.py:54-79 | a successful Word or PowerPoint conversion returns `<folder>/<base>_page_<k>.png` for k = 1..n, with the input's own base name, when that name holds a non-dot character |
| `FileConversion.FileConverter.ConvertOffice` | file_converter.py:53-83 | the Word and PowerPoint conversions render `<outputFolder>/<base>.pdf`; they fail exactly when the export or the rendering fails, and then with that path; on success the images are named after the input's base name |
| `FileConversion.FileConverter.ConvertDocx` | file_converter.py:47-88 | a Word document gives the page images of its intermediate PDF, named after the document's base name when that name holds a non-dot character, or a Word conversion failure |
| `FileConversion.FileConverter.ConvertPptx` | file_converter.py:91-133 | a presentation gives the page images of its intermediate PDF, named after the presentation's base name when that name holds a non-dot character, or a PowerPoint conversion failure |
| `OcrExtraction.Entries` | AI_services.py:21-45 | the loop appends exactly one entry per image path |
| `OcrExtraction.ExtractTitle` | AI_services.py:59-61 | "Sin título" for an empty text; otherwise a prefix of the text with no line feed and at most 100 characters, which stops short of 100 only at a line feed or at the text's end |
| `OcrExtraction.ExtractWithMistralOcr` | AI_services.py:15-57 | the result is the joined entries, the graphics list and the metadata for these pages; pages, filename, method tag and date are as given |
| `OcrExtraction.EntriesAt` | AI_services.py:21-45 | entry k - 1 is `"\n\n## Pagina k\n\n"` followed by page k's OCR text, or by the placeholder when its call failed |
| `OcrExtraction.GraphicsWellFormed` | AI_services.py:37-42 | no more records than pages; each has a page in 1..n and the fixed description and type; pages strictly ascend, so each page has at most one |
| `OcrExtraction.GraphicsIff` | AI_services.py:37-42 | page k has a graphic record exactly when its call succeeded and its lower-cased text contains a keyword |
| `OcrExtraction.FailedPage` | AI_services.py:43-45 | a failed page gets the heading plus "Error al procesar la imagen." and no graphic record |
| `OcrExtraction.OcrTextHoldsEntry` | AI_services.py:48 | the merged text holds page k's entry at its offset |
| `OcrExtraction.OcrTextSeparatesEntries` | AI_services.py:48 | one line feed, and nothing else, separates consecutive entries in the merged text |
| `OcrExtraction.OcrTextInPageOrder` | AI_services.py:21-48 | in the merged text, page i's entry ends before page j's begins whenever i < j |
| `OcrExtraction.OcrTitle` | AI_services.py:55 | with no pages: empty text, no graphics, title "Sin título"; with any page: the title is "" |
| `OcrExtraction.HasGraphicKeywordIff` | AI_services.py:37 | the graphic test holds exactly when a keyword occurs somewhere in the lower-cased text |
| `OcrExtraction.HasGraphicKeywordIgnoresCase` | AI_services.py:37 | the graphic test gives the same answer on a text and on its lower-cased form |
| `OcrExtraction.AccentedCapitalsDetected` | AI_services.py:37 | "GRÁFICO" is lowered to "gráfico" and counts as a graphic |
| `OcrExtraction.SubstringNotWord` | AI_services.py:37 | the test matches substrings, not words: "paragraph" counts as a graphic |

## Left out

- `app.py`: Flask request handling, the temporary directory and environment loading are routing glue around the two cores.
- The Mistral and Gemini clients and the `AIServices` constructor (AI_services.py:9-13): reading and base64-encoding the image and the OCR request (AI_services.py:23-34) are the oracle `ocr`, so the class has no modelled state.
- The oracle returns a string or nothing. A provider answer whose `.text` is not a string would raise in `.lower()` after the entry was appended, giving that page two entries. That case is not modelled.
- `processed_date` comes from `datetime.now()`; it is the parameter `processedDate`.
- `print` logging in both files.
- `Strings.Lower` models `str.lower()` for ASCII and the Latin-1 capitals (U+00C0 to U+00DE except U+00D7) only. Other capitals, and characters that lower to several characters, are kept unchanged.
- `PosixPath`: the code drives Word and PowerPoint through COM, so it runs on Windows, where `os.path` is `ntpath`. There '\\' is also a separator and drive letters count. The model uses POSIX `posixpath` semantics.
- PDF rendering at 300 dpi, `pix.save`, COM setup and teardown, `os.makedirs`, `os.path.abspath`, `os.path.exists` and the removal of the intermediate PDF are I/O or foreign calls. The model keeps only the page count and whether the export happened.
- `FileConversion.FileConverter.ConvertOffice`: a failed Word or PowerPoint export, a missing intermediate PDF and a rendering failure all become one error holding the kind and the PDF path. The model does not keep the text of the wrapped exception.
