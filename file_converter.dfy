/**
 * The page-image side of the converter (file_converter.py): dispatch on the
 * declared file type, the base name taken from the input path, and one PNG
 * path per page, `<output folder>/<base>_page_<k>.png` with k counting from 1.
 *
 * The rendering library is reduced to `pageCount`, which says how many pages
 * the PDF at a path has, or None when it cannot be opened. The Word and
 * PowerPoint automation is reduced to `exported`: whether it wrote the
 * intermediate PDF `<output folder>/<base>.pdf`.
 */
module FileConversion {
  import opened Wrappers
  import opened Strings
  import opened PosixPath

  /** The three supported input formats. */
  datatype FileKind = Pdf | Docx | Pptx

  /** The exceptions the converter lets escape. */
  datatype ConversionError =
    | UnsupportedFileType                                  // ValueError("Tipo de archivo no soportado")
    | PdfOpenFailed(pdfPath: string)                       // the PDF could not be opened for rendering
    | OfficeConversionFailed(kind: FileKind, pdfPath: string)  // "Fallo en _convert_docx / _convert_pptx (path: ...)"

  /** The file-type string that selects each format. */
  function TypeTag(kind: FileKind): string
  {
    match kind
    case Pdf => "pdf"
    case Docx => "docx"
    case Pptx => "pptx"
  }

  /** Which converter a file-type string selects: only the three exact lower-case tags. */
  function KindOf(fileType: string): (r: Option<FileKind>)
    ensures r.Some? <==> fileType in {"pdf", "docx", "pptx"}
    ensures r.Some? ==> TypeTag(r.value) == fileType
    ensures forall kind :: r == Some(kind) <==> TypeTag(kind) == fileType
  {
    if fileType == "pdf" then Some(Pdf)
    else if fileType == "docx" then Some(Docx)
    else if fileType == "pptx" then Some(Pptx)
    else None
  }

  /** `os.path.splitext(os.path.basename(path))[0]`: the file name without its final extension. */
  function Stem(path: string): string
  {
    SplitExt(Basename(path)).0
  }

  /** The base name is a prefix of the basename, so it holds no '/'. */
  lemma StemOfBasename(path: string)
    ensures Stem(path) <= Basename(path)
    ensures Sep !in Stem(path)
  {
    SplitExtParts(Basename(path));
    BasenameIsFinalComponent(path);
    assert Basename(path) == Stem(path) + SplitExt(Basename(path)).1;
  }

  /** The base name of `<folder>/<name>` is the root of name. */
  lemma StemOfJoin(folder: string, name: string)
    requires Sep !in name
    ensures Stem(Join(folder, name)) == SplitExt(name).0
  {
    BasenameOfJoin(folder, name);
  }

  /** The file name of the k-th page image: `<base>_page_<k>.png`. */
  function PageImageName(base: string, k: nat): string
  {
    base + "_page_" + NatToString(k) + ".png"
  }

  /** The paths of pages 1..n, in page order, as the rendering loop appends them. */
  function PagePaths(folder: string, base: string, n: nat): (paths: seq<string>)
    ensures |paths| == n
  {
    if n == 0 then [] else PagePaths(folder, base, n - 1) + [Join(folder, PageImageName(base, n))]
  }

  /** The intermediate PDF the Word and PowerPoint conversions write: `<folder>/<base>.pdf`. */
  function IntermediatePdf(folder: string, path: string): string
  {
    Join(folder, Stem(path) + ".pdf")
  }

  /** What rendering the PDF at pdfPath returns. */
  function PdfImages(folder: string, pdfPath: string, pageCount: string -> Option<nat>): Result<seq<string>, ConversionError>
  {
    match pageCount(pdfPath)
    case None => Failure(PdfOpenFailed(pdfPath))
    case Some(n) => Success(PagePaths(folder, Stem(pdfPath), n))
  }

  /** What a Word or PowerPoint conversion returns: the rendering of its intermediate PDF, or its wrapped failure. */
  function OfficeImages(folder: string, kind: FileKind, path: string, exported: bool, pageCount: string -> Option<nat>)
    : Result<seq<string>, ConversionError>
  {
    var pdfPath := IntermediatePdf(folder, path);
    if !exported then Failure(OfficeConversionFailed(kind, pdfPath))
    else match PdfImages(folder, pdfPath, pageCount)
      case Success(images) => Success(images)
      case Failure(_) => Failure(OfficeConversionFailed(kind, pdfPath))
  }

  /** The k-th path (counting from 1) of a rendering is the folder joined with `<base>_page_<k>.png`. */
  lemma {:induction false} PagePathsAt(folder: string, base: string, n: nat, k: nat)
    requires 1 <= k <= n
    ensures PagePaths(folder, base, n)[k - 1] == Join(folder, PageImageName(base, k))
  {
    if k < n {
      PagePathsAt(folder, base, n - 1, k);
    } else if n > 1 {
      PagePathsAt(folder, base, n - 1, n - 1);
    }
  }

  /** Two page-image names with the same base differ when their page numbers differ. */
  lemma PageImageNameInjective(base: string, j: nat, k: nat)
    requires PageImageName(base, j) == PageImageName(base, k)
    ensures j == k
  {
    var prefix := base + "_page_";
    var sj, sk := NatToString(j), NatToString(k);
    assert PageImageName(base, j) == prefix + sj + ".png";
    assert PageImageName(base, k) == prefix + sk + ".png";
    assert |sj| == |sk|;
    assert sj == PageImageName(base, j)[|prefix|..|prefix| + |sj|];
    assert sk == PageImageName(base, k)[|prefix|..|prefix| + |sk|];
    NatToStringInjective(j, k);
  }

  /** Joining one folder with two names that are both relative, or both absolute, gives equal paths only for equal names. */
  lemma JoinInjective(folder: string, x: string, y: string)
    requires (|x| > 0 && x[0] == Sep) == (|y| > 0 && y[0] == Sep)
    requires Join(folder, x) == Join(folder, y)
    ensures x == y
  {
    if !(|x| > 0 && x[0] == Sep) {
      var prefix := if folder == [] || folder[|folder| - 1] == Sep then folder else folder + [Sep];
      assert Join(folder, x) == prefix + x && Join(folder, y) == prefix + y;
      assert x == (prefix + x)[|prefix|..];
    }
  }

  /** Page images of different pages get different paths. */
  lemma PageImageNamesDiffer(folder: string, base: string, j: nat, k: nat)
    requires j != k
    ensures Join(folder, PageImageName(base, j)) != Join(folder, PageImageName(base, k))
  {
    var x, y := PageImageName(base, j), PageImageName(base, k);
    assert |base| > 0 ==> x[0] == base[0] && y[0] == base[0];
    assert |base| == 0 ==> x[0] == '_' && y[0] == '_';
    if Join(folder, x) == Join(folder, y) {
      JoinInjective(folder, x, y);
      PageImageNameInjective(base, j, k);
    }
  }

  /** The paths of one rendering are pairwise distinct. */
  lemma PagePathsDistinct(folder: string, base: string, n: nat, i: nat, j: nat)
    requires i < j < n
    ensures PagePaths(folder, base, n)[i] != PagePaths(folder, base, n)[j]
  {
    PagePathsAt(folder, base, n, i + 1);
    PagePathsAt(folder, base, n, j + 1);
    PageImageNamesDiffer(folder, base, i + 1, j + 1);
  }

  /**
   * The intermediate PDF of a Word or PowerPoint file keeps the input's base
   * name, so its page images are named after the original file, provided the
   * base name holds a character other than '.'.
   */
  lemma IntermediatePdfKeepsStem(folder: string, path: string)
    requires HasNonDot(Stem(path), 0, |Stem(path)|)
    ensures Stem(IntermediatePdf(folder, path)) == Stem(path)
  {
    var base := Stem(path);
    var ext := ".pdf";
    assert ext[1..] == "pdf";
    StemOfBasename(path);
    StemOfJoin(folder, base + ext);
    SplitExtOfRootAndExt(base, ext);
  }

  /**
   * A successful Word or PowerPoint conversion returns page images named after
   * the input's base name, when that name holds a character other than '.'.
   */
  lemma OfficeImagesNamedAfterInput(folder: string, kind: FileKind, path: string, pageCount: string -> Option<nat>)
    requires HasNonDot(Stem(path), 0, |Stem(path)|)
    requires OfficeImages(folder, kind, path, true, pageCount).Success?
    ensures OfficeImages(folder, kind, path, true, pageCount).value
         == PagePaths(folder, Stem(path), pageCount(IntermediatePdf(folder, path)).value)
  {
    IntermediatePdfKeepsStem(folder, path);
  }

  /** A path ending in '/' has an empty base name. */
  lemma StemOfDirectory(dir: string)
    ensures Stem(dir + "/") == ""
  {
    var path := dir + "/";
    RFindUnique(path, Sep, |path| - 1);
    assert Basename(path) == "";
  }

  /**
   * When the input path names no file (it ends in '/'), the base name is empty,
   * the intermediate PDF is `<folder>/.pdf`, and since splitext leaves a
   * leading-dot name whole, the page images are named `.pdf_page_<k>.png`.
   */
  lemma IntermediatePdfOfEmptyStem(folder: string, dir: string)
    ensures Stem(IntermediatePdf(folder, dir + "/")) == ".pdf"
  {
    StemOfDirectory(dir);
    assert Stem(dir + "/") + ".pdf" == ".pdf";
    StemOfJoin(folder, ".pdf");
    LeadingDotNameHasNoExtension();
  }

  /** splitext leaves ".pdf" whole: its only dot is a leading one. */
  lemma LeadingDotNameHasNoExtension()
    ensures SplitExt(".pdf") == (".pdf", "")
  {
    var pdf := ".pdf";
    RFindUnique(pdf, Sep, -1);
    RFindUnique(pdf, ExtSep, 0);
    assert !HasNonDot(pdf, 0, 0);
  }

  /** The converter object: where uploads and page images live. Only its constructor sets the fields. */
  class FileConverter {
    const uploadFolder: string
    const outputFolder: string

    /** Creating the two folders on disk is I/O and is not modelled. */
    constructor (uploadFolder: string := "uploads", outputFolder: string := "outputs")
      ensures this.uploadFolder == uploadFolder && this.outputFolder == outputFolder
    {
      this.uploadFolder := uploadFolder;
      this.outputFolder := outputFolder;
    }

    /**
     * Converts a file to one image per page. Only the exact tags "pdf", "docx"
     * and "pptx" are accepted; anything else, upper-case variants included, is
     * rejected with UnsupportedFileType.
     */
    method ConvertToImages(filePath: string, fileType: string, exported: bool, pageCount: string -> Option<nat>)
      returns (r: Result<seq<string>, ConversionError>)
      ensures KindOf(fileType) == None ==> r == Failure(UnsupportedFileType)
      ensures KindOf(fileType) == Some(Pdf) ==> r == PdfImages(outputFolder, filePath, pageCount)
      ensures KindOf(fileType) == Some(Docx) ==> r == OfficeImages(outputFolder, Docx, filePath, exported, pageCount)
      ensures KindOf(fileType) == Some(Pptx) ==> r == OfficeImages(outputFolder, Pptx, filePath, exported, pageCount)
    {
      if fileType == "pdf" {
        r := ConvertPdf(filePath, pageCount);
        return;
      }
      if fileType == "docx" {
        r := ConvertDocx(filePath, exported, pageCount);
        return;
      }
      if fileType == "pptx" {
        r := ConvertPptx(filePath, exported, pageCount);
      } else {
        r := Failure(UnsupportedFileType);
      }
    }

    /** Renders each page of the PDF to `<outputFolder>/<base>_page_<k>.png`, in page order. */
    method ConvertPdf(pdfPath: string, pageCount: string -> Option<nat>) returns (r: Result<seq<string>, ConversionError>)
      ensures r == PdfImages(outputFolder, pdfPath, pageCount)
      ensures r.Failure? <==> pageCount(pdfPath) == None
      ensures r.Success? ==> |r.value| == pageCount(pdfPath).value
      ensures r.Success? ==> forall k :: 1 <= k <= |r.value| ==>
        r.value[k - 1] == Join(outputFolder, PageImageName(Stem(pdfPath), k))
    {
      var baseName := Stem(pdfPath);
      var doc := pageCount(pdfPath);
      if doc == None {
        return Failure(PdfOpenFailed(pdfPath));
      }
      var images: seq<string> := [];
      var pageNum := 0;
      while pageNum < doc.value
        invariant 0 <= pageNum <= doc.value
        invariant images == PagePaths(outputFolder, baseName, pageNum)
      {
        var outputPath := Join(outputFolder, PageImageName(baseName, pageNum + 1));
        images := images + [outputPath];
        pageNum := pageNum + 1;
      }
      r := Success(images);
      forall k | 1 <= k <= |images|
        ensures images[k - 1] == Join(outputFolder, PageImageName(baseName, k))
      {
        PagePathsAt(outputFolder, baseName, doc.value, k);
      }
    }

    /** Converts a Word document through the intermediate PDF `<outputFolder>/<base>.pdf`. */
    method ConvertDocx(docxPath: string, exported: bool, pageCount: string -> Option<nat>)
      returns (r: Result<seq<string>, ConversionError>)
      ensures r == OfficeImages(outputFolder, Docx, docxPath, exported, pageCount)
      ensures r.Success? && HasNonDot(Stem(docxPath), 0, |Stem(docxPath)|) ==> r.value == PagePaths(outputFolder, Stem(docxPath), |r.value|)
    {
      r := ConvertOffice(Docx, docxPath, exported, pageCount);
    }

    /** Converts a PowerPoint presentation through the intermediate PDF `<outputFolder>/<base>.pdf`. */
    method ConvertPptx(pptxPath: string, exported: bool, pageCount: string -> Option<nat>)
      returns (r: Result<seq<string>, ConversionError>)
      ensures r == OfficeImages(outputFolder, Pptx, pptxPath, exported, pageCount)
      ensures r.Success? && HasNonDot(Stem(pptxPath), 0, |Stem(pptxPath)|) ==> r.value == PagePaths(outputFolder, Stem(pptxPath), |r.value|)
    {
      r := ConvertOffice(Pptx, pptxPath, exported, pageCount);
    }

    /** The steps the Word and PowerPoint conversions share. */
    method ConvertOffice(kind: FileKind, path: string, exported: bool, pageCount: string -> Option<nat>)
      returns (r: Result<seq<string>, ConversionError>)
      ensures r == OfficeImages(outputFolder, kind, path, exported, pageCount)
      ensures r.Failure? <==> !exported || pageCount(IntermediatePdf(outputFolder, path)).None?
      ensures r.Failure? ==> r.error == OfficeConversionFailed(kind, IntermediatePdf(outputFolder, path))
      ensures r.Success? && HasNonDot(Stem(path), 0, |Stem(path)|) ==> r.value == PagePaths(outputFolder, Stem(path), |r.value|)
    {
      var baseName := Stem(path);
      var pdfPath := Join(outputFolder, baseName + ".pdf");
      if !exported {
        return Failure(OfficeConversionFailed(kind, pdfPath));
      }
      var images := ConvertPdf(pdfPath, pageCount);
      if images.Failure? {
        return Failure(OfficeConversionFailed(kind, pdfPath));
      }
      r := images;
      if HasNonDot(baseName, 0, |baseName|) {
        OfficeImagesNamedAfterInput(outputFolder, kind, path, pageCount);
      }
    }
  }
}
