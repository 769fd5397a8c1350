/**
 * The label sheet component: it holds the flat label sequence, derives the
 * pages from it, enables the save button when there is a page, and exports
 * the pages one image per document page.
 */
module LabelSheets {
  import opened Wrappers
  import opened Ingest
  import opened Pagination
  import opened Pdf

  type Label = string
  type Page = seq<Label>

  /** What the CSV parser hands back (`result.data` without a header row): rows of cells. */
  type ParsedRows = seq<seq<string>>

  /** The name the document is saved under. */
  const PDF_FILE_NAME: string := "labels.pdf"

  /**
   * Rasterising the rendered element of one page: the page's index and its
   * labels give its image, or None when the capture fails. Each call may
   * fail on its own, whatever the labels.
   */
  type Capture = (nat, Page) -> Option<DataUrl>

  /** How an export ended. */
  datatype SaveOutcome =
    | NoLabels                        // nothing loaded: returned before creating a document
    | Saved                           // every page exported and the document saved
    | CaptureFailed(pageIndex: nat)   // capturing this page failed: the export stopped unsaved

  /**
   * The label state after a file-input change: with no file selected the
   * labels stay; otherwise they become the flattened parse result.
   */
  function UploadResult(current: seq<Label>, file: Option<ParsedRows>): (labels: seq<Label>)
  {
    match file
    case None => current
    case Some(rows) => Flatten(rows)
  }

  /** An upload replaces the labels: what was loaded before makes no difference. */
  lemma UploadReplaces(a: seq<Label>, b: seq<Label>, rows: ParsedRows)
    ensures UploadResult(a, Some(rows)) == UploadResult(b, Some(rows))
    ensures |UploadResult(a, Some(rows))| == TotalCells(rows)
  {
    FlattenLength(rows);
  }

  /** Uploading the same data twice leaves the labels of the first upload. */
  lemma UploadIdempotent(current: seq<Label>, file: Option<ParsedRows>)
    ensures UploadResult(UploadResult(current, file), file) == UploadResult(current, file)
  {
  }

  /** After `k` pages, the document has `k` pages (at least its first) and image `j` of page `j` on page `j`. */
  ghost predicate HoldsPages(doc: PdfDocument, pages: seq<Page>, capture: Capture, k: nat)
    reads doc
  {
    k <= |pages| &&
    doc.pageCount == (if k == 0 then 1 else k) &&
    |doc.images| == k &&
    forall j :: 0 <= j < k ==>
      capture(j, pages[j]).Some? && doc.images[j] == Placement(j, capture(j, pages[j]).value)
  }

  /** Capturing every page succeeds. */
  predicate AllCaptured(pages: seq<Page>, capture: Capture)
  {
    forall k :: 0 <= k < |pages| ==> capture(k, pages[k]).Some?
  }

  class LabelSheet {
    var labels: seq<Label>

    /** The component starts with no labels. */
    constructor ()
      ensures labels == []
    {
      labels := [];
    }

    /** A file-input change: a selected file's parse result replaces the labels. */
    method HandleFileUpload(file: Option<ParsedRows>)
      modifies this
      ensures labels == UploadResult(old(labels), file)
    {
      if file.Some? {
        labels := Flatten(file.value);
      }
    }

    /** The pages shown and exported: the labels, `LABELS_PER_PAGE` to a page. */
    method Pages() returns (pages: seq<Page>)
      ensures pages == Chunk(labels, LABELS_PER_PAGE)
      ensures Flatten(pages) == labels && WellPaged(pages, LABELS_PER_PAGE)
      ensures SaveEnabled(pages) <==> labels != []
    {
      pages := Paginate(labels, LABELS_PER_PAGE);
      ChunkRoundTrip(labels, LABELS_PER_PAGE);
      ChunkShape(labels, LABELS_PER_PAGE);
      SaveEnabledIff(labels, LABELS_PER_PAGE);
    }

    /**
     * Export: with no labels, stop before creating a document; otherwise
     * export the pages and save.
     */
    method HandleSavePdf(capture: Capture) returns (outcome: SaveOutcome, doc: PdfDocument?)
      ensures outcome == NoLabels <==> labels == []
      ensures outcome == NoLabels ==> doc == null
      ensures outcome != NoLabels ==> doc != null && fresh(doc) && doc.Valid()
      ensures outcome == Saved ==>
        HoldsPages(doc, Chunk(labels, LABELS_PER_PAGE), capture, |Chunk(labels, LABELS_PER_PAGE)|) &&
        doc.savedAs == Some(PDF_FILE_NAME)
      ensures outcome.CaptureFailed? ==>
        outcome.pageIndex < |Chunk(labels, LABELS_PER_PAGE)| &&
        capture(outcome.pageIndex, Chunk(labels, LABELS_PER_PAGE)[outcome.pageIndex]).None? &&
        HoldsPages(doc, Chunk(labels, LABELS_PER_PAGE), capture, outcome.pageIndex) &&
        doc.savedAs == None
      ensures labels != [] && AllCaptured(Chunk(labels, LABELS_PER_PAGE), capture) ==> outcome == Saved
    {
      var pages := Pages();
      if |labels| == 0 {
        return NoLabels, null;
      }
      outcome, doc := ExportPages(pages, capture);
    }
  }

  /**
   * The page loop of the export: walk the pages in order; each captured
   * image goes onto its own page, the first page being the document's
   * initial one, so a page is added only from the second page on. A failed
   * capture ends the export unsaved; after the last page the document is
   * saved.
   */
  method ExportPages(pages: seq<Page>, capture: Capture) returns (outcome: SaveOutcome, doc: PdfDocument)
    ensures fresh(doc) && doc.Valid() && outcome != NoLabels
    ensures outcome == Saved ==> HoldsPages(doc, pages, capture, |pages|) && doc.savedAs == Some(PDF_FILE_NAME)
    ensures outcome.CaptureFailed? ==>
      outcome.pageIndex < |pages| && capture(outcome.pageIndex, pages[outcome.pageIndex]).None? &&
      HoldsPages(doc, pages, capture, outcome.pageIndex) && doc.savedAs == None
    ensures AllCaptured(pages, capture) ==> outcome == Saved
  {
    doc := new PdfDocument();
    var pageIndex := 0;
    while pageIndex < |pages|
      invariant pageIndex <= |pages|
      invariant fresh(doc) && doc.Valid() && doc.savedAs == None
      invariant HoldsPages(doc, pages, capture, pageIndex)
    {
      var image := capture(pageIndex, pages[pageIndex]);
      if image.None? {
        assert !AllCaptured(pages, capture);
        return CaptureFailed(pageIndex), doc;
      }
      if pageIndex > 0 {
        doc.AddPage();
      }
      doc.AddImage(image.value);
      pageIndex := pageIndex + 1;
    }
    doc.Save(PDF_FILE_NAME);
    outcome := Saved;
  }
}
