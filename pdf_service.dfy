/**
  PDF export: one A4 page per generated image, in order, the image drawn as
  a square inset by the margin and centred vertically; an image the PDF
  library cannot insert leaves a centred notice on its page instead, and the
  document is saved under a name derived from the child's name.
 */
module PdfService {
  import opened Wrappers
  import opened JsStrings

  /** An image of the generated book: its data URI and its alternative text. */
  datatype GeneratedImage = GeneratedImage(src: string, alt: string)

  /** Layout in millimetres on a portrait A4 sheet. */
  const PdfWidth: real := 210.0
  const PdfHeight: real := 297.0
  const Margin: real := 15.0
  const ImgWidth: real := PdfWidth - Margin * 2.0
  const ImgHeight: real := ImgWidth
  const ImgX: real := Margin
  const ImgY: real := (PdfHeight - ImgHeight) / 2.0

  const ImageFormat: string := "JPEG"
  const FallbackText: string := "Could not load image."
  const FileSuffix: string := "-coloring-book.pdf"

  /** The image square lies on the page, the margin on its left and right,
      the same space above and below it. */
  lemma ImageLayout()
    ensures ImgWidth == ImgHeight == 180.0
    ensures ImgX == 15.0 && ImgY == 117.0 / 2.0
    ensures ImgX == Margin && PdfWidth - (ImgX + ImgWidth) == Margin
    ensures 0.0 < ImgY && ImgY == PdfHeight - (ImgY + ImgHeight)
  {
  }

  datatype Align = Left | Center

  /** What is drawn on a page. */
  datatype Mark =
    | ImageMark(src: string, format: string, x: real, y: real, w: real, h: real)
    | TextMark(text: string, x: real, y: real, align: Align)

  type Page = seq<Mark>

  /** The notice left on a page whose image could not be inserted, centred on
      the sheet. */
  function FallbackMark(): (m: Mark)
    ensures m.TextMark? && m.x == PdfWidth / 2.0 && m.y == PdfHeight / 2.0 && m.align == Center
    ensures m.x == 105.0 && m.y == 297.0 / 2.0
    ensures m.text == FallbackText
  {
    TextMark(FallbackText, PdfWidth / 2.0, PdfHeight / 2.0, Center)
  }

  /** The page for one image: the image in its square, or the notice when
      the PDF library rejects the image (`decodes` is the library's verdict
      on image data). */
  function PageFor(image: GeneratedImage, decodes: string -> bool): (p: Page)
    ensures |p| == 1
    ensures decodes(image.src) ==> p[0] == ImageMark(image.src, ImageFormat, ImgX, ImgY, ImgWidth, ImgHeight)
    ensures !decodes(image.src) ==> p[0] == FallbackMark()
  {
    if decodes(image.src) then [ImageMark(image.src, ImageFormat, ImgX, ImgY, ImgWidth, ImgHeight)]
    else [FallbackMark()]
  }

  /** `ps` with `m` drawn on its last page. */
  function DrawnOnLast(ps: seq<Page>, m: Mark): (r: seq<Page>)
    requires |ps| > 0
    ensures |r| == |ps| && r[..|r| - 1] == ps[..|ps| - 1] && r[|r| - 1] == ps[|ps| - 1] + [m]
  {
    ps[..|ps| - 1] + [ps[|ps| - 1] + [m]]
  }

  /** The PDF library's document handle, seen as the marks on each page. A
      new document has one empty page, which is the current one; drawing
      always goes to the last page. */
  class PdfDocument {
    var pages: seq<Page>
    var savedAs: Option<string>

    ghost predicate Valid()
      reads this
    {
      |pages| > 0
    }

    constructor ()
      ensures Valid() && pages == [[]] && savedAs == None
    {
      pages := [[]];
      savedAs := None;
    }

    method AddPage()
      requires Valid()
      modifies this
      ensures Valid() && pages == old(pages) + [[]] && savedAs == old(savedAs)
    {
      pages := pages + [[]];
    }

    /** Draws `m` on the current page. */
    method Draw(m: Mark)
      requires Valid()
      modifies this
      ensures Valid() && savedAs == old(savedAs)
      ensures pages == DrawnOnLast(old(pages), m)
    {
      pages := DrawnOnLast(pages, m);
    }

    /** `addImage`: draws the image, or fails without drawing anything when
        the library cannot decode `src`. */
    method AddImage(src: string, format: string, x: real, y: real, w: real, h: real, decodes: string -> bool)
      returns (ok: bool)
      requires Valid()
      modifies this
      ensures Valid() && savedAs == old(savedAs)
      ensures ok == decodes(src)
      ensures ok ==> pages == DrawnOnLast(old(pages), ImageMark(src, format, x, y, w, h))
      ensures !ok ==> pages == old(pages)
    {
      ok := decodes(src);
      if ok {
        Draw(ImageMark(src, format, x, y, w, h));
      }
    }

    /** `text`: writes `s` on the current page. */
    method Text(s: string, x: real, y: real, align: Align)
      requires Valid()
      modifies this
      ensures Valid() && savedAs == old(savedAs)
      ensures pages == DrawnOnLast(old(pages), TextMark(s, x, y, align))
    {
      Draw(TextMark(s, x, y, align));
    }

    method Save(name: string)
      requires Valid()
      modifies this
      ensures Valid()
      ensures pages == old(pages) && savedAs == Some(name)
    {
      savedAs := Some(name);
    }
  }

  /** The saved file's name: the child's name in lower case with every
      whitespace character turned into '-', then "-coloring-book.pdf". */
  function PdfFileName(childName: string): (name: string)
    ensures |name| == |childName| + 18
    ensures EndsWith(name, FileSuffix)
    ensures forall i :: 0 <= i < |name| ==> !IsWhitespace(name[i])
    ensures forall i :: 0 <= i < |childName| ==>
              name[i] == if IsWhitespace(childName[i]) then '-' else LowerChar(childName[i])
  {
    var stem := ReplaceWhitespace(ToLower(childName), '-');
    EndsWithConcat(stem, FileSuffix);
    StemPlusSuffixHasNoWhitespace(stem);
    stem + FileSuffix
  }

  /** A whitespace-free stem followed by the suffix has no whitespace: the
      suffix has none. */
  lemma StemPlusSuffixHasNoWhitespace(stem: string)
    requires forall i :: 0 <= i < |stem| ==> !IsWhitespace(stem[i])
    ensures forall i :: 0 <= i < |stem + FileSuffix| ==> !IsWhitespace((stem + FileSuffix)[i])
  {
    assert forall i :: 0 <= i < |FileSuffix| ==> !IsWhitespace(FileSuffix[i]);
  }

  /** Two names that differ only in letter case or in which whitespace
      separates their words give the same file name. */
  lemma FileNameIgnoresCaseAndSpacing(n1: string, n2: string)
    requires |n1| == |n2|
    requires forall i :: 0 <= i < |n1| ==>
               (IsWhitespace(n1[i]) && IsWhitespace(n2[i])) || LowerChar(n1[i]) == LowerChar(n2[i])
    ensures PdfFileName(n1) == PdfFileName(n2)
  {
    var f1, f2 := PdfFileName(n1), PdfFileName(n2);
    forall i | 0 <= i < |f1| ensures f1[i] == f2[i] {
      if i < |n1| {
        assert IsWhitespace(n1[i]) <==> IsWhitespace(LowerChar(n1[i]));
        assert IsWhitespace(n2[i]) <==> IsWhitespace(LowerChar(n2[i]));
      } else {
        assert f1[i] == FileSuffix[i - |n1|] == f2[i];
      }
    }
  }

  /** `generatePdf`: a new document, then for each image in order a new page
      (except for the first image, which uses the document's first page) and
      the image or, when inserting it fails, the notice; failures do not stop
      the loop. Returns the document's pages and the name it was saved
      under, as the document records them. */
  method GeneratePdf(images: seq<GeneratedImage>, childName: string, decodes: string -> bool)
    returns (pages: seq<Page>, saved: Option<string>)
    ensures |pages| == if |images| == 0 then 1 else |images|
    ensures forall k :: 0 <= k < |images| ==> pages[k] == PageFor(images[k], decodes)
    ensures |images| == 0 ==> pages == [[]]
    ensures saved == Some(PdfFileName(childName))
  {
    var pdf := new PdfDocument();
    for index := 0 to |images|
      invariant pdf.Valid()
      invariant |pdf.pages| == if index == 0 then 1 else index
      invariant forall k :: 0 <= k < index ==> pdf.pages[k] == PageFor(images[k], decodes)
      invariant index == 0 ==> pdf.pages == [[]]
    {
      if index > 0 {
        pdf.AddPage();
      }
      var ok := pdf.AddImage(images[index].src, ImageFormat, ImgX, ImgY, ImgWidth, ImgHeight, decodes);
      if !ok {
        pdf.Text(FallbackText, PdfWidth / 2.0, PdfHeight / 2.0, Center);
      }
    }
    pdf.Save(PdfFileName(childName));
    pages, saved := pdf.pages, pdf.savedAs;
  }
}
