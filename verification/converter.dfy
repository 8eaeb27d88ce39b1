/**
  File-to-pages extraction of `converter.py`. OCR (`pytesseract.image_to_string`),
  image decoding (`PIL.Image.open`) and PDF rasterisation (`convert_from_path`)
  are foreign and appear as the fields of `Engines`.
*/
module Converter {
  import opened Wrappers

  /** Encoded image data as handed to the OCR engine. */
  type Image = seq<bv8>

  /** The format every PDF page is rasterised to. */
  const RasterFormat: string := "jpeg"

  const PdfSuffix: string := ".pdf"
  const ImageSuffixes: seq<string> := [".png", ".jpg", ".jpeg"]

  /** The foreign engines: OCR of one image, decoding a file into an image, rasterising a PDF in a given format. */
  datatype Engines = Engines(imageToString: Image -> string,
                             openImage: string -> Image,
                             convertFromPath: (string, string) -> seq<Image>)

  /** How a path is handled, decided by its lower-cased suffix. */
  datatype FileKind = Pdf | Picture | Unsupported

  /** Lower-casing of one character; only ASCII letters change. */
  function LowerChar(c: char): char
  {
    if 'A' <= c <= 'Z' then (c as int - 'A' as int + 'a' as int) as char else c
  }

  /** Upper-casing of one character; only ASCII letters change. */
  function UpperChar(c: char): char
  {
    if 'a' <= c <= 'z' then (c as int - 'a' as int + 'A' as int) as char else c
  }

  /** `str.lower()` on the characters that can matter for a suffix test. */
  function Lower(s: string): string
  {
    seq(|s|, i requires 0 <= i < |s| => LowerChar(s[i]))
  }

  /** `str.endswith` with a single suffix. */
  predicate EndsWith(s: string, suffix: string)
  {
    |suffix| <= |s| && s[|s| - |suffix|..] == suffix
  }

  /** `str.endswith` with a tuple of suffixes: any one of them. */
  predicate EndsWithAny(s: string, suffixes: seq<string>)
    decreases |suffixes|
  {
    suffixes != [] && (EndsWith(s, suffixes[0]) || EndsWithAny(s, suffixes[1..]))
  }

  /** The branch of `convert_file` a path takes, by its lower-cased suffix; PDF is tested first. */
  function Classify(path: string): FileKind
  {
    var lower := Lower(path);
    if EndsWith(lower, PdfSuffix) then Pdf
    else if EndsWithAny(lower, ImageSuffixes) then Picture
    else Unsupported
  }

  /** `EndsWithAny` holds exactly when one of the suffixes matches. */
  lemma {:induction false} EndsWithAnyIff(s: string, suffixes: seq<string>)
    ensures EndsWithAny(s, suffixes) <==> exists k :: 0 <= k < |suffixes| && EndsWith(s, suffixes[k])
    decreases |suffixes|
  {
    if suffixes != [] {
      EndsWithAnyIff(s, suffixes[1..]);
      assert forall k :: 1 <= k < |suffixes| ==> suffixes[k] == suffixes[1..][k - 1];
    }
  }

  /**
    A path is a PDF exactly when its lower-cased form ends with `.pdf`, and an
    image exactly when it does not but ends with one of the image suffixes.
  */
  lemma ClassifyBySuffix(path: string)
    ensures Classify(path) == Pdf <==> EndsWith(Lower(path), PdfSuffix)
    ensures Classify(path) == Picture <==>
              && !EndsWith(Lower(path), PdfSuffix)
              && exists k :: 0 <= k < |ImageSuffixes| && EndsWith(Lower(path), ImageSuffixes[k])
  {
    EndsWithAnyIff(Lower(path), ImageSuffixes);
  }

  /**
    `convert_image`: image data takes precedence over the path; with neither
    (an empty or absent path) the result is the empty string.
  */
  function ConvertImage(imagePath: Option<string>, imageData: Option<Image>, engines: Engines): (text: string)
    ensures imageData.Some? ==> text == engines.imageToString(imageData.value)
    ensures imageData.None? && (imagePath.None? || imagePath.value == "") ==> text == ""
    ensures imageData.None? && imagePath.Some? && imagePath.value != "" ==>
              text == engines.imageToString(engines.openImage(imagePath.value))
  {
    if imageData.Some? then engines.imageToString(imageData.value)
    else if imagePath.Some? && imagePath.value != "" then engines.imageToString(engines.openImage(imagePath.value))
    else ""
  }

  /** OCR applied to each image in turn. */
  function OcrAll(images: seq<Image>, engines: Engines): seq<string>
  {
    seq(|images|, i requires 0 <= i < |images| => ConvertImage(None, Some(images[i]), engines))
  }

  /**
    An image file is read as the one-image list holding its decoded image:
    reading by path agrees with reading the decoded data, which is what the
    PDF branch does page by page.
  */
  lemma ImageFileAsOneImage(path: string, engines: Engines)
    requires Classify(path) == Picture
    ensures path != ""
    ensures ConvertImage(Some(path), None, engines) == ConvertImage(None, Some(engines.openImage(path)), engines)
    ensures Pages(Some(path), engines) == Some(OcrAll([engines.openImage(path)], engines))
  {
    var ocr := OcrAll([engines.openImage(path)], engines);
    assert |ocr| == 1 && ocr[0] == ConvertImage(None, Some(engines.openImage(path)), engines);
    assert ocr == [engines.imageToString(engines.openImage(path))];
  }

  /** `convert_images`: one text per image, in the images' order. */
  method ConvertImages(images: seq<Image>, engines: Engines) returns (texts: seq<string>)
    ensures |texts| == |images|
    ensures forall i :: 0 <= i < |images| ==> texts[i] == engines.imageToString(images[i])
  {
    texts := [];
    var k := 0;
    while k < |images|
      invariant 0 <= k <= |images|
      invariant |texts| == k
      invariant forall i :: 0 <= i < k ==> texts[i] == engines.imageToString(images[i])
    {
      var text := ConvertImage(None, Some(images[k]), engines);
      texts := texts + [text];
      k := k + 1;
    }
  }

  /** `convert_pdf`: one text per rasterised page, in page order. */
  method ConvertPdf(pdfPath: string, engines: Engines) returns (pages: seq<string>)
    ensures |pages| == |engines.convertFromPath(pdfPath, RasterFormat)|
    ensures forall i :: 0 <= i < |pages| ==> pages[i] == engines.imageToString(engines.convertFromPath(pdfPath, RasterFormat)[i])
  {
    var images := engines.convertFromPath(pdfPath, RasterFormat);
    pages := ConvertImages(images, engines);
  }

  /**
    What `convert_file` returns: `[]` for an absent path, the per-page texts
    of a PDF, a one-element list for an image, and `None` (a value distinct
    from `[]`) for anything else.
  */
  function Pages(path: Option<string>, engines: Engines): (r: Option<seq<string>>)
    ensures path.None? ==> r == Some([])
    ensures r.None? <==> path.Some? && Classify(path.value) == Unsupported
    ensures path.Some? && Classify(path.value) == Picture ==>
              r == Some([engines.imageToString(engines.openImage(path.value))])
    ensures path.Some? && Classify(path.value) == Pdf ==>
              && r.Some?
              && |r.value| == |engines.convertFromPath(path.value, RasterFormat)|
              && forall i :: 0 <= i < |r.value| ==>
                   r.value[i] == engines.imageToString(engines.convertFromPath(path.value, RasterFormat)[i])
  {
    match path
    case None => Some([])
    case Some(p) =>
      match Classify(p)
      case Pdf => Some(OcrAll(engines.convertFromPath(p, RasterFormat), engines))
      case Picture => Some([ConvertImage(Some(p), None, engines)])
      case Unsupported => None
  }

  /** `convert_file`, step by step as the source does it. */
  method ConvertFile(path: Option<string>, engines: Engines) returns (r: Option<seq<string>>)
    ensures r == Pages(path, engines)
  {
    if path.None? {
      return Some([]);
    }
    var p := path.value;
    var kind := Classify(p);
    if kind == Pdf {
      var pages := ConvertPdf(p, engines);
      assert pages == OcrAll(engines.convertFromPath(p, RasterFormat), engines);
      r := Some(pages);
    } else if kind == Picture {
      r := Some([ConvertImage(Some(p), None, engines)]);
    } else {
      r := None;
    }
  }

  /** `q` is `p` with the case of any of its letters changed. */
  predicate Recased(p: string, q: string)
  {
    |p| == |q| && forall i :: 0 <= i < |p| ==> q[i] == p[i] || q[i] == UpperChar(p[i]) || q[i] == LowerChar(p[i])
  }

  /** Classification ignores case: every re-casing of a path is handled like the path itself. */
  lemma ClassifyIgnoresCase(p: string, q: string)
    requires Recased(p, q)
    ensures Classify(p) == Classify(q)
  {
    assert Lower(p) == Lower(q);
  }

  /** An upper-case PDF suffix is recognised. */
  lemma ClassifyUpperPdf()
    ensures Classify("Report.PDF") == Pdf
  {
    var lower := Lower("Report.PDF");
    assert lower[6..] == [LowerChar('.'), LowerChar('P'), LowerChar('D'), LowerChar('F')];
  }

  /** An upper-case JPEG suffix is recognised. */
  lemma ClassifyUpperJpeg()
    ensures Classify("scan.JPEG") == Picture
  {
    var lower := Lower("scan.JPEG");
    assert lower[4..] == [LowerChar('.'), LowerChar('J'), LowerChar('P'), LowerChar('E'), LowerChar('G')];
    assert lower[5] != PdfSuffix[1];
    assert EndsWithAny(lower, ImageSuffixes[2..]);
  }

  /** The empty path is unsupported. */
  lemma ClassifyEmpty()
    ensures Classify("") == Unsupported
  {
  }

  /** A text file is unsupported. */
  lemma ClassifyText()
    ensures Classify("notes.txt") == Unsupported
  {
    var lower := Lower("notes.txt");
    assert lower[4] == 's' && lower[6] == 't';
    assert lower[6] != PdfSuffix[1] && lower[6] != ImageSuffixes[0][1] && lower[6] != ImageSuffixes[1][1];
    assert lower[4] != ImageSuffixes[2][0];
    assert ImageSuffixes[1..][1..][1..] == [];
  }
}
