/**
 * The table's cell renderers. `Cell` only shows text and has no handler; a
 * `JSONCell` shows a button that carries the cell's id and, when clicked,
 * opens the JSON inspector on that id.
 */
module Cells {
  import opened SearchParams

  /** The button a `JSONCell` renders: its `data-json-id` attribute and its click handler. */
  datatype JsonCellButton = JsonCellButton(dataJsonId: int, onClick: Search -> Search)

  /** The button's handler writes the id the button shows, and nothing else. */
  function RenderJsonCell(id: int): (b: JsonCellButton)
    ensures forall s :: ViewerKey in b.onClick(s) && b.onClick(s)[ViewerKey] == b.dataJsonId
    ensures forall s :: AgreeExcept(s, b.onClick(s), ViewerKey)
  {
    JsonCellButton(id, s => HandleClick(s, id))
  }

  /** `handleClick`: the search updater `{ ...prev, json_viewer: id }`. */
  function HandleClick(s: Search, id: int): (r: Search)
    ensures ViewerKey in r && r[ViewerKey] == id
    ensures AgreeExcept(s, r, ViewerKey)
  {
    Put(s, ViewerKey, id)
  }

  /** Clicking the same cell twice is the same as clicking it once. */
  lemma ClickIdempotent(s: Search, id: int)
    ensures HandleClick(HandleClick(s, id), id) == HandleClick(s, id)
  {
  }

  /** A click replaces whatever cell was open: only the last click counts. */
  lemma ClickSwitchesCell(s: Search, first: int, second: int)
    ensures HandleClick(HandleClick(s, first), second) == HandleClick(s, second)
  {
  }

  /** The click writes exactly the id the button shows. */
  lemma ClickWritesRenderedId(s: Search, id: int)
    ensures var r := HandleClick(s, id);
      ViewerKey in r && r[ViewerKey] == RenderJsonCell(id).dataJsonId
    ensures RenderJsonCell(id).onClick(s) == HandleClick(s, id)
  {
  }
}
