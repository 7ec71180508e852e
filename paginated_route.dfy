/**
 * The paginated route: its search schema (`p` defaults to 0, `json_viewer`
 * is optional), the columns and their JSON-cell ids, the selection decoded
 * from `json_viewer`, and `goToPage`.
 */
module PaginatedRoute {
  import opened Wrappers
  import opened SearchParams
  import opened CellAddress
  import Cells

  const PageSize: nat := 100

  /** The table's columns, in order; the two text columns are JSON cells. */
  const Columns: seq<string> := ["id", "translated_text", "translated_chunks", "og_language_score"]
  const JsonColumns: set<int> := {1, 2}

  /** `table.getAllColumns().length`. */
  const NumCols: nat := |Columns|

  /** The search schema: a missing `p` becomes 0, everything else passes through. */
  function ValidateSearch(raw: Search): (s: Search)
    ensures PageKey in s && s[PageKey] == (if PageKey in raw then raw[PageKey] else 0)
    ensures AgreeExcept(raw, s, PageKey)
  {
    if PageKey in raw then raw else Put(raw, PageKey, 0)
  }

  /** The id a JSON cell of the route carries. */
  function CellId(rowIndex: int, colIndex: int): (id: int)
    ensures rowIndex >= 0 && 0 <= colIndex < NumCols ==> id >= 0 && Decode(id, NumCols) == Cell(rowIndex, colIndex)
  {
    if rowIndex >= 0 && 0 <= colIndex < NumCols then DecodeEncode(rowIndex, colIndex, NumCols); Encode(rowIndex, colIndex, NumCols)
    else Encode(rowIndex, colIndex, NumCols)
  }

  /** `selected`: no cell without `json_viewer`, otherwise the decoded address. */
  function Selected(s: Search, numCols: int): (c: Option<Cell>)
    requires numCols > 0
    ensures c.None? <==> ViewerKey !in s
    ensures c.Some? ==> c.value.row * numCols <= s[ViewerKey] < c.value.row * numCols + numCols
    ensures c.Some? && s[ViewerKey] >= 0 ==> Encode(c.value.row, c.value.col, numCols) == s[ViewerKey]
  {
    if ViewerKey !in s then None
    else
      EncodeDecode(s[ViewerKey], numCols);
      Some(Decode(s[ViewerKey], numCols))
  }

  /** `goToPage`: set `p`, keep every other parameter. */
  function GoToPage(s: Search, newPage: int): (r: Search)
    ensures PageKey in r && r[PageKey] == newPage
    ensures AgreeExcept(s, r, PageKey)
  {
    Put(s, PageKey, newPage)
  }

  /** Changing page keeps the open cell. */
  lemma GoToPageKeepsSelection(s: Search, newPage: int, numCols: int)
    requires numCols > 0
    ensures Selected(GoToPage(s, newPage), numCols) == Selected(s, numCols)
  {
  }

  /** Address 0 is the cell (0, 0), not "closed": only an absent parameter is closed. */
  lemma AddressZeroIsOpen(s: Search, numCols: int)
    requires numCols > 0
    ensures Selected(Put(s, ViewerKey, 0), numCols) == Some(Cell(0, 0))
    ensures Selected(Drop(s, ViewerKey), numCols) == None
  {
    DecodeEncode(0, 0, numCols);
  }

  /** Clicking the JSON cell of a row opens the inspector on that row and column. */
  lemma ClickOpensCell(s: Search, rowIndex: int, colIndex: int)
    requires rowIndex >= 0 && colIndex in JsonColumns
    ensures Selected(Cells.HandleClick(s, CellId(rowIndex, colIndex)), NumCols) == Some(Cell(rowIndex, colIndex))
  {
    DecodeEncode(rowIndex, colIndex, NumCols);
  }
}
