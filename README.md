# Label sheets: ingestion, pagination and PDF export

A model of the label sheet component (`src/LabelSheets.js`). It reads a CSV
file into a flat list of labels, cuts the list into sheets of ten labels, and
exports the sheets as a PDF with one image per page.

- `Ingest` (ingest.dfy): the parser's rows are flattened one level, in
  row-major order, into the label sequence (`result.data.flat(1)`).
- `Pagination` (pagination.dfy): `labelsPerPage` (10), JavaScript's clamping
  `slice`, a reference paginator `Chunk`, and the loop that builds `pages`
  (`Paginate`). The loop is proved equal to `Chunk`. `Chunk` itself is shown
  to have ceil(|labels| / 10) pages, to concatenate back to the labels, to have full
  pages except a last page of 1 to 10 labels, and to be the only pagination
  with that shape. The save-button predicate is here too.
- `Pdf` (pdf.dfy): the jsPDF document reduced to a page count that starts at 1,
  the list of images drawn (each with the page it was drawn on), and the name
  it was saved under.
- `LabelSheets` (labelsheets.dfy): the component. The `labels` state is the
  field of class `LabelSheet`. An upload replaces it. `Pages` derives the
  pages. `HandleSavePdf` guards against an empty label list and then runs
  `ExportPages`. That loop adds a page only from the second page on, so after
  P pages the document has exactly P pages and page k holds the image of page k.

Rasterisation (`html2canvas` followed by `canvas.toDataURL`) is a parameter
`capture: (nat, Page) -> Option<DataUrl>`: it is given the page's index and
labels, since each page is captured from its own rendered element and each
call can fail on its own. `None` stands for a capture whose promise rejects. The source has no `try`/`catch`, so such a rejection ends
`handleSavePDF` before `pdf.save`: the model returns `CaptureFailed(k)`, and the
document holds the images of pages 0..k-1 and has not been saved.

## Model

| member | source | states |
|---|---|---|
| `Ingest.Flatten` | src/LabelSheets.js:22 | `result.data.flat(1)`: the cells of every row, row after row, one level deep |
| `LabelSheets.UploadResult` | src/LabelSheets.js:19-22 | the labels after a file-input change: unchanged with no file, otherwise the flattened parse result |
| `Pagination.Slice` | src/LabelSheets.js:33 | JavaScript `slice` for non-negative bounds: both clamped to the length, an end before the start gives []; the result is the run of the input starting at `start`, of length min(end, \|s\|) - start when that is positive |
| `Pagination.SaveEnabled` | src/LabelSheets.js:62 | the save button is enabled (`disabled={pages.length === 0}` is false) exactly when there is a page |
| `Ingest.FlattenLength` | src/LabelSheets.js:22 | the flattened labels number exactly the sum of the row lengths |
| `Ingest.FlattenAt` | src/LabelSheets.js:22 | cell c of row r is at position (cells of rows before r) + c of the labels: row-major order |
| `LabelSheets.UploadReplaces` | src/LabelSheets.js:17-28 | after an upload the labels depend only on the parse result, not on the labels held before, and their count is the total cell count |
| `LabelSheets.UploadIdempotent` | src/LabelSheets.js:22 | uploading the same data twice leaves the labels of the first upload |
| `LabelSheets.LabelSheet.constructor` | src/LabelSheets.js:8 | the component starts with no labels |
| `LabelSheets.LabelSheet.HandleFileUpload` | src/LabelSheets.js:17-28 | no file selected: labels unchanged; otherwise labels become the flattened parse result, whatever they were |
| `Pagination.Paginate` | src/LabelSheets.js:31-34 | the slicing loop with step n produces exactly the reference pagination `Chunk(labels, n)` |
| `Pagination.ChunkCount` | src/LabelSheets.js:31-34 | the number of pages is ceil(\|labels\| / n), hence 0 for no labels |
| `Pagination.ChunkRoundTrip` | src/LabelSheets.js:31-34 | concatenating the pages in order gives back the labels |
| `Pagination.ChunkShape` | src/LabelSheets.js:32-33 | every page but the last has exactly n labels; the last has between 1 and n |
| `Pagination.ChunkUnique` | src/LabelSheets.js:31-34 | any page list of that shape that concatenates to the labels is the pagination: the three laws determine it |
| `Pagination.ChunkAt` | src/LabelSheets.js:32-33 | page k holds labels [k·n, min((k+1)·n, \|labels\|)) |
| `Pagination.ChunkStep` | src/LabelSheets.js:33 | one loop turn: the pages from offset i are `labels.slice(i, i + n)` followed by the pages from offset i + n |
| `Pagination.SaveEnabledIff` | src/LabelSheets.js:62 | the save button is enabled (some page exists) exactly when labels is non-empty |
| `Pagination.TwoPageScenario` | src/LabelSheets.js:31-34 | rows [["A","B"],["C"]] with two labels to a page give pages [["A","B"],["C"]] |
| `LabelSheets.LabelSheet.Pages` | src/LabelSheets.js:31-34 | the pages are `Chunk(labels, 10)`, concatenate to the labels, are well shaped, and exist exactly when labels is non-empty |
| `LabelSheets.LabelSheet.HandleSavePdf` | src/LabelSheets.js:36-59 | no labels: returns before creating a document; otherwise the outcome and document of `ExportPages` over `Chunk(labels, 10)` |
| `LabelSheets.ExportPages` | src/LabelSheets.js:42-58 | on success the fresh document has exactly P pages for P >= 1 (P-1 `addPage` calls; an empty page list, which `HandleSavePdf` never passes, leaves the one initial page), image k is the capture of page k (given its index and labels) drawn on page k in ascending order, and it is saved as labels.pdf; on a failed capture at k, k images are placed and nothing is saved; if every capture succeeds the export succeeds |
| `Pdf.PdfDocument.constructor` | src/LabelSheets.js:42-46 | a new document has one implicit page and no images |
| `Pdf.PdfDocument.AddPage` | src/LabelSheets.js:52 | adds one page and leaves the images alone |
| `Pdf.PdfDocument.AddImage` | src/LabelSheets.js:53 | draws the image on the current, last page |
| `Pdf.PdfDocument.Save` | src/LabelSheets.js:58 | records the file name, leaving pages and images alone |

## Left out

- CSV parsing (`Papa.parse`, with `header: false` and `skipEmptyLines: false`) is an external library; its output `result.data` is the input `ParsedRows`, and parse errors it reports beside the data are not modelled.
- The file picker event (`event.target.files[0]`) is reduced to an optional parse result; the asynchronous `complete` callback is modelled as the state update it performs.
- Rasterisation (`html2canvas` at scale 2 on the rendered page element, then `toDataURL("image/png")`) is the `capture` parameter; the DOM rendering of a page (`src/LabelSheets.js:60-105`) is taken to show exactly that page's labels.
- jsPDF internals: the orientation, unit and 12 x 18 inch format passed to the constructor, and the position and size arguments of `addImage`, are not modelled; the document keeps only its page count, placed images and saved file name. The download itself is not modelled.
- Pixel geometry (`labelWidth`, `labelHeight`, `paperWidth`, `paperHeight`) is floating-point layout with no checked relation to `labelsPerPage`.
- The `alert` shown for an empty label list is UI output; the model returns `NoLabels` in its place.
- The `await` of each capture is sequential, so the page loop is an ordinary loop; React re-rendering (recomputing `pages` on each render) is the `Pages` method called on the current labels.
- A progress indicator and failure cleanup appear in other versions of the component, not in `src/LabelSheets.js`, so they are not modelled.
