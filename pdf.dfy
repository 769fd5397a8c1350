/**
 * The paginated output document, reduced to what the export loop changes:
 * how many pages it has, which image was drawn on which page, and the file
 * name it was saved under.
 */
module Pdf {
  import opened Wrappers

  /** An encoded page image, as `canvas.toDataURL("image/png")` returns it. */
  type DataUrl = string

  /** One `addImage` call: the image and the page it was drawn on (0-based). */
  datatype Placement = Placement(page: nat, image: DataUrl)

  class PdfDocument {
    var pageCount: nat
    var images: seq<Placement>
    var savedAs: Option<string>

    /** There is always a current page, and every image lies on an existing page. */
    ghost predicate Valid()
      reads this
    {
      pageCount >= 1 &&
      forall j :: 0 <= j < |images| ==> images[j].page < pageCount
    }

    /** A new document already has one (blank) page. */
    constructor ()
      ensures Valid()
      ensures pageCount == 1 && images == [] && savedAs == None
    {
      pageCount := 1;
      images := [];
      savedAs := None;
    }

    /** Appends a blank page, which becomes the current page. */
    method AddPage()
      requires Valid()
      modifies this
      ensures Valid()
      ensures pageCount == old(pageCount) + 1
      ensures images == old(images) && savedAs == old(savedAs)
    {
      pageCount := pageCount + 1;
    }

    /** Draws an image on the current page, which is always the last one. */
    method AddImage(image: DataUrl)
      requires Valid()
      modifies this
      ensures Valid()
      ensures images == old(images) + [Placement(old(pageCount) - 1, image)]
      ensures pageCount == old(pageCount) && savedAs == old(savedAs)
    {
      images := images + [Placement(pageCount - 1, image)];
    }

    /** Offers the document for download under `fileName`. */
    method Save(fileName: string)
      requires Valid()
      modifies this
      ensures Valid()
      ensures savedAs == Some(fileName)
      ensures pageCount == old(pageCount) && images == old(images)
    {
      savedAs := Some(fileName);
    }
  }
}
