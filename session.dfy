/**
 * The paginated route as a running session: the router's search state and
 * the dataset, changed in place by the handlers of the JSON cells, the
 * page buttons, and the inspector overlay's buttons and keys.
 */
module Session {
  import opened Wrappers
  import opened SearchParams
  import opened Utils
  import CellAddress
  import PaginatedRoute
  import Cells
  import JsonViewerOverlay

  class PaginatedViewer {
    /** The records the table shows (`data`). */
    var data: seq<Row>
    /** The router's current search parameters. */
    var search: Search

    constructor (initialData: seq<Row>, rawSearch: Search)
      ensures data == initialData
      ensures search == PaginatedRoute.ValidateSearch(rawSearch)
    {
      data := initialData;
      search := PaginatedRoute.ValidateSearch(rawSearch);
    }

    /** The row the overlay is mounted on, if any (`selected.row`). */
    function SelectedIndex(): Option<int>
      reads this
    {
      match PaginatedRoute.Selected(search, PaginatedRoute.NumCols)
      case None => None
      case Some(c) => Some(c.row)
    }

    /** Whether the overlay is mounted at all. */
    predicate OverlayOpen()
      reads this
    {
      SelectedIndex().Some?
    }

    /** A click on the JSON cell with id `id`. */
    method ClickJsonCell(id: int)
      modifies this
      ensures search == Cells.HandleClick(old(search), id)
      ensures data == old(data)
      ensures SelectedIndex() == Some(CellAddress.Decode(id, PaginatedRoute.NumCols).row)
    {
      search := Cells.HandleClick(search, id);
    }

    /** A click on a page button. */
    method GoToPage(newPage: int)
      modifies this
      ensures search == PaginatedRoute.GoToPage(old(search), newPage)
      ensures data == old(data)
      ensures SelectedIndex() == old(SelectedIndex())
    {
      search := PaginatedRoute.GoToPage(search, newPage);
      PaginatedRoute.GoToPageKeepsSelection(old(search), newPage, PaginatedRoute.NumCols);
    }

    /** "Refresh Data": a new dataset; the open address is kept as it is. */
    method Refresh(newData: seq<Row>)
      modifies this
      ensures data == newData && search == old(search)
    {
      data := newData;
    }

    /**
     * A click on a previous, next or close button of the overlay; the
     * buttons exist only when the selected record does.
     */
    method Press(intent: JsonViewerOverlay.Intent)
      requires OverlayOpen() && 0 <= SelectedIndex().value < |data|
      modifies this
      ensures search == JsonViewerOverlay.Handle(intent, old(search), old(SelectedIndex()).value, |data|, PaginatedRoute.NumCols)
      ensures data == old(data)
      ensures intent == JsonViewerOverlay.Close ==> SelectedIndex() == None
      ensures intent == JsonViewerOverlay.Prev ==>
        SelectedIndex() == if old(SelectedIndex()).value > 0 then Some(old(SelectedIndex()).value - 1) else old(SelectedIndex())
      ensures intent == JsonViewerOverlay.Next ==>
        SelectedIndex() == if old(SelectedIndex()).value < |data| - 1 then Some(old(SelectedIndex()).value + 1) else old(SelectedIndex())
    {
      var i := SelectedIndex().value;
      if intent != JsonViewerOverlay.Close && JsonViewerOverlay.Enabled(intent, i, |data|) {
        JsonViewerOverlay.NavigationLandsOnRowStart(intent, search, i, |data|, PaginatedRoute.NumCols);
      }
      search := JsonViewerOverlay.Handle(intent, search, i, |data|, PaginatedRoute.NumCols);
    }

    /** A key pressed while the overlay is mounted, whether or not its record exists. */
    method KeyDown(key: string)
      requires OverlayOpen()
      modifies this
      ensures search == JsonViewerOverlay.HandleKeyDown(key, old(search), old(SelectedIndex()).value, |data|, PaginatedRoute.NumCols)
      ensures data == old(data)
    {
      search := JsonViewerOverlay.HandleKeyDown(key, search, SelectedIndex().value, |data|, PaginatedRoute.NumCols);
    }
  }

  /**
   * Five records, a cell of row 2 open: next goes to row 3, then row 4; next
   * on the last row and previous on the first do nothing; other keys do
   * nothing; close closes.
   */
  method NavigationScenario(rows: seq<Row>)
    requires |rows| == 5
  {
    var v := new PaginatedViewer(rows, map[]);
    var id := PaginatedRoute.CellId(2, 1);
    assert CellAddress.Decode(id, PaginatedRoute.NumCols).row == 2;
    v.ClickJsonCell(id);
    assert v.SelectedIndex() == Some(2) && |v.data| == 5;
    v.Press(JsonViewerOverlay.Next);
    assert v.SelectedIndex() == Some(3);
    v.Press(JsonViewerOverlay.Next);
    v.Press(JsonViewerOverlay.Next);
    assert v.SelectedIndex() == Some(4);
    id := PaginatedRoute.CellId(0, 2);
    assert CellAddress.Decode(id, PaginatedRoute.NumCols).row == 0;
    v.ClickJsonCell(id);
    v.Press(JsonViewerOverlay.Prev);
    assert v.SelectedIndex() == Some(0);
    v.KeyDown("Enter");
    assert v.SelectedIndex() == Some(0);
    v.Press(JsonViewerOverlay.Close);
    assert v.SelectedIndex() == None && PageKey in v.search && v.search[PageKey] == 0;
  }
}
