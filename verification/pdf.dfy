/** The page counter of the PDF viewer: which page is shown, how many the open
    document has, and the keyboard shortcuts that move between them. */
module PdfViewer {
  import opened Wrappers

  /** Whether the viewer overlay is displayed, `currentPageNum`, `totalPages` and
      `currentPDFPath`. */
  datatype Viewer = Viewer(shown: bool, page: int, total: int, path: string)

  /** The viewer before anything is opened, and after it is closed. */
  const Closed: Viewer := Viewer(false, 1, 0, "")

  /** The page always lies between 1 and the page count (or is 1 when nothing is open). */
  predicate PageInv(v: Viewer) {
    1 <= v.page && (v.page <= v.total || v.page == 1)
  }

  /** `pdfNextPage`. */
  function Next(v: Viewer): (r: Viewer)
    ensures v.page < v.total ==> r == v.(page := v.page + 1)
    ensures v.page >= v.total ==> r == v
  {
    if v.page < v.total then v.(page := v.page + 1) else v
  }

  /** `pdfPrevPage`. */
  function Prev(v: Viewer): (r: Viewer)
    ensures v.page > 1 ==> r == v.(page := v.page - 1)
    ensures v.page <= 1 ==> r == v
  {
    if v.page > 1 then v.(page := v.page - 1) else v
  }

  /** The `disabled` state `updatePDFButtons` gives the previous and next buttons. */
  datatype Buttons = Buttons(prevDisabled: bool, nextDisabled: bool)

  function ButtonState(v: Viewer): (b: Buttons)
    ensures b.prevDisabled <==> v.page <= 1
    ensures b.nextDisabled <==> v.page >= v.total
  {
    Buttons(!(v.page > 1), !(v.page < v.total))
  }

  /** A disabled button is exactly one whose move would change nothing. */
  lemma ButtonsMatchMoves(v: Viewer)
    ensures ButtonState(v).prevDisabled <==> Prev(v) == v
    ensures ButtonState(v).nextDisabled <==> Next(v) == v
  {
    if v.page > 1 {
      assert Prev(v).page != v.page;
    }
    if v.page < v.total {
      assert Next(v).page != v.page;
    }
  }

  /** Opening: the overlay is displayed before the document arrives. */
  function BeginOpen(v: Viewer): (r: Viewer)
    ensures r.shown && r.page == v.page && r.total == v.total
  {
    v.(shown := true)
  }

  /** The document has arrived: its page count is taken and page 1 shown. Opening by
      path also remembers the path; opening from file data does not. */
  function Loaded(v: Viewer, numPages: nat, path: Option<string>): (r: Viewer)
    ensures r.page == 1 && r.total == numPages && r.shown == v.shown
    ensures path.Some? ==> r.path == path.value
    ensures path.None? ==> r.path == v.path
  {
    v.(total := numPages, page := 1, path := if path.Some? then path.value else v.path)
  }

  /** `closePDFViewer`, also what a failed load ends in. */
  function Close(v: Viewer): (r: Viewer)
    ensures !r.shown && r.page == 1 && r.total == 0 && r.path == []
  {
    Closed
  }

  /** The document-wide `keydown` listener: only while the overlay is displayed. */
  function OnKey(v: Viewer, key: string): (r: Viewer)
    ensures !v.shown ==> r == v
    ensures v.shown && (key == "ArrowRight" || key == "ArrowDown") ==> r == Next(v)
    ensures v.shown && (key == "ArrowLeft" || key == "ArrowUp") ==> r == Prev(v)
    ensures v.shown && key == "Escape" ==> r == Closed
    ensures v.shown && key !in {"ArrowRight", "ArrowDown", "ArrowLeft", "ArrowUp", "Escape"} ==> r == v
  {
    if !v.shown then v
    else if key == "ArrowRight" || key == "ArrowDown" then Next(v)
    else if key == "ArrowLeft" || key == "ArrowUp" then Prev(v)
    else if key == "Escape" then Close(v)
    else v
  }

  /** Every transition keeps the page within the document. */
  lemma TransitionsKeepPageInv(v: Viewer, numPages: nat, path: Option<string>, key: string)
    requires PageInv(v)
    ensures PageInv(Next(v)) && PageInv(Prev(v)) && PageInv(BeginOpen(v))
    ensures PageInv(Loaded(v, numPages, path)) && PageInv(Close(v)) && PageInv(OnKey(v, key))
  {
  }

  /** Next then previous returns to the page, when there is a next page. */
  lemma NextThenPrev(v: Viewer)
    requires 1 <= v.page < v.total
    ensures Prev(Next(v)) == v
  {
  }

  /** Previous then next returns to the page, when there is a previous page. */
  lemma PrevThenNext(v: Viewer)
    requires 1 < v.page <= v.total
    ensures Next(Prev(v)) == v
  {
  }

  /** After closing, moving forward does nothing until another document loads. */
  lemma NextAfterCloseIsNoop(v: Viewer)
    ensures Next(Close(v)) == Close(v)
    ensures Next(BeginOpen(Close(v))) == BeginOpen(Close(v))
  {
  }
}
