# Dataset viewer: page list, cell addresses and the JSON inspector

A Dafny model of the logic in the dataset viewer front-end. The model covers four things:

- **The page-button list** of the paginated route (`getPageNumbers`). It is a loop that pushes page numbers and `"ellipsis"` markers. It is proved equal to a list function, and the function is proved to:
  - show every page when there are at most five;
  - otherwise start at page 0 and end at the last page;
  - have at most seven entries;
  - list pages in strictly increasing order;
  - place ellipses exactly where pages are skipped;
  - show exactly the first page, the last page, and the current page with its in-range neighbours.
- **The cell-address codec.**
  - A JSON cell's id is `row * numCols + col`.
  - The route reads the `json_viewer` search parameter back as `Math.floor(a / numCols)` and `a % numCols`. JavaScript's `%` truncates, and the model writes that out.
  - Both round trips are proved. One iff lemma states exactly which addresses survive decode-then-encode: non-negative addresses and multiples of `numCols`.
- **The URL search state and its transitions.** The search state is a map from parameter name to integer. Each of the following is a function on it, with its guard:
  - opening a JSON cell;
  - previous, next and close in the overlay;
  - the keyboard dispatch;
  - changing page.
  
  Lemmas show what the transitions do:
  - each one preserves every other parameter;
  - previous and next land on column 0 of the neighbouring row;
  - while the overlay is open on the row its address decodes to, a handler changes the state exactly when `hasPrev`/`hasNext` allows it;
  - the nav buttons are hidden exactly when their handler would do nothing.
  
  The class `Session.PaginatedViewer` holds the router's search state and the dataset. Its methods apply these transitions in place.
- **The fake data.** This covers `range`, the `<urn:uuid:…>` id format, and the fact that `makeData` returns `lens[0]` records and uses no other length.

Taken as parameters:
- `totalPages`;
- `data.length` (the length of the row sequence);
- the random generator's output (`draw: nat -> Draw`).

`numCols` is the route's four columns (`PaginatedRoute.NumCols`). The overlay lemmas take it as any positive number.

Two behaviours of the code are worth stating:
- The code raises no error for a zero column count. `numCols` is always 4, so decoding simply requires `numCols > 0`.
- A negative `json_viewer` is not rejected. It decodes through `Math.floor` and the truncating `%` to a negative row, and the overlay then renders nothing. The keyboard listener is registered before that early return, so ArrowRight from a negative row still navigates. The model keeps both behaviours: `HandleKeyDown` does not require a rendered view.

## Model

| member | source | states |
|---|---|---|
| `CellAddress.Encode` | src/routes/paginated/route.tsx:63 | a cell id lies in its row's block of addresses, `[row*numCols, row*numCols + numCols)`, when `0 <= col < numCols`; it is non-negative for non-negative row and column |
| `CellAddress.FloorDiv` | src/routes/paginated/route.tsx:113 | `Math.floor(a / n)`: the quotient `q` with `q*n <= a < q*n + n` |
| `CellAddress.JsRem` | src/routes/paginated/route.tsx:114 | JavaScript `a % n`: in `[0, n)` for `a >= 0`, in `(-n, 0]` and equal to `-((-a) mod n)` for negative `a` |
| `CellAddress.Decode` | src/routes/paginated/route.tsx:110-116 | the decoded row is the floor quotient; a non-negative address gives a non-negative row and a column in `[0, numCols)`; a negative one gives a negative row |
| `CellAddress.DecodeEncode` | src/routes/paginated/route.tsx:63-71 | for `row >= 0`, `0 <= col < numCols`: decoding the cell id `row*numCols + col` gives `(row, col)` back |
| `CellAddress.EncodeDecode` | src/routes/paginated/route.tsx:113-114 | re-encoding a decoded address gives it back iff it is non-negative or a multiple of `numCols` |
| `CellAddress.DecodeRowStart` | src/components/json-viewer-overlay.tsx:33 | the address `row*numCols` of any row decodes to `(row, 0)` |
| `Pagination.Run` | src/routes/paginated/route.tsx:131 | the pages `lo..hi` as consecutive page buttons; none when `lo > hi` |
| `Pagination.GetPageNumbers` | src/routes/paginated/route.tsx:128-142 | the two push loops and conditional pushes build exactly `PageNumbers(totalPages, page)` |
| `Pagination.SmallTotalListsEveryPage` | src/routes/paginated/route.tsx:130-131 | with at most 5 pages the list is `0..totalPages-1` in order, with no ellipsis |
| `Pagination.LargeTotalEndpoints` | src/routes/paginated/route.tsx:133-139 | with more than 5 pages the list starts with page 0, ends with the last page, and has 3 to 7 entries |
| `Pagination.EllipsisPositions` | src/routes/paginated/route.tsx:134-138 | with more than 5 pages an ellipsis is at index 1 iff `page > 2`, at the next-to-last index iff `page < totalPages - 3`, and nowhere else |
| `Pagination.EllipsesAroundCurrentPage` | src/routes/paginated/route.tsx:134-138 | for an existing current page: leading ellipsis iff `page > 2`, trailing ellipsis iff `page < totalPages - 3` |
| `Pagination.ShownPages` | src/routes/paginated/route.tsx:128-142 | page `q` is listed iff it exists and (there are at most 5 pages, or it is the first, the last, or within one of the current page); so every listed page is in range, and an existing current page is listed |
| `Pagination.PageNumbersIncreasing` | src/routes/paginated/route.tsx:128-142 | the listed page numbers strictly increase, for any current page |
| `Pagination.PageNumbersGapsMarked` | src/routes/paginated/route.tsx:133-139 | adjacent page buttons are consecutive pages; every ellipsis sits between two page buttons and hides at least one page |
| `Utils.Indices` | src/utils.ts:12-18 | the list `0..len-1`: length `len` (0 when `len <= 0`) and entry `i` equal to `i` |
| `Utils.Range` | src/utils.ts:12-18 | `range`'s push loop returns exactly `Indices(len)` |
| `Utils.UrnId` | src/utils.ts:22 | the id is `<urn:uuid:` + uuid + `>`: its prefix, its closing `>`, and the uuid recoverable from the middle |
| `Utils.MakeData` | src/utils.ts:31-42 | `lens[0]` records (none for a non-positive or missing length), record `k` built by `newPerson` from the k-th draw, with a urn id |
| `Utils.OnlyFirstLengthUsed` | src/utils.ts:31-41 | lengths after the first do not change the result |
| `Utils.GeneratedIds` | src/utils.ts:22 | every generated id has the urn prefix and suffix around that record's uuid |
| `Utils.NewPerson` | src/utils.ts:20-29 | the id wraps the drawn uuid in `<urn:uuid:` … `>`; the two texts and the score are the drawn ones |
| `Utils.ToRow` | src/utils.ts:20-29 | a record has exactly the four `Person` keys, in declaration order, each once |
| `SearchParams.Put` | src/components/cells.tsx:28 | the spread update `{ ...prev, [key]: v }`: `key` holds `v`, every other parameter is unchanged |
| `SearchParams.Drop` | src/components/json-viewer-overlay.tsx:23-24 | the rest-destructuring: `key` is absent, every other parameter is unchanged |
| `Cells.RenderJsonCell` | src/components/cells.tsx:36-38 | the button's own click handler, on any search state, writes into `json_viewer` the id the button shows as `data-json-id`, and keeps every other parameter |
| `Cells.HandleClick` | src/components/cells.tsx:25-30 | a click sets `json_viewer` to the cell's id and leaves every other parameter unchanged |
| `Cells.ClickIdempotent` | src/components/cells.tsx:28 | two clicks on the same cell equal one |
| `Cells.ClickSwitchesCell` | src/components/cells.tsx:28 | a click overwrites the open cell: only the last click counts |
| `Cells.ClickWritesRenderedId` | src/components/cells.tsx:28-38 | the id a click writes into `json_viewer` equals the `data-json-id` the same cell's button shows, and the button's handler is that click |
| `JsonViewerOverlay.FlagsMatchNeighbours` | src/components/json-viewer-overlay.tsx:69-72 | for a shown record, `hasPrev` holds iff the overlay would show a record at `selectedIndex - 1`, and `hasNext` iff it would show one at `selectedIndex + 1` |
| `JsonViewerOverlay.KeyIntent` | src/components/json-viewer-overlay.tsx:56-62 | Escape names close, ArrowLeft previous, ArrowRight next, and every other key nothing |
| `JsonViewerOverlay.Show` | src/components/json-viewer-overlay.tsx:172-176 | a value is shown as JSON iff its `typeof` is `"object"` (null, array, object), otherwise through `String`; the value itself is kept |
| `JsonViewerOverlay.HandleClose` | src/components/json-viewer-overlay.tsx:19-27 | `json_viewer` is removed; every other parameter is unchanged |
| `JsonViewerOverlay.HandlePrev` | src/components/json-viewer-overlay.tsx:29-36 | when `selectedIndex > 0`, `json_viewer` becomes `(selectedIndex-1)*numCols` and nothing else changes; otherwise the state is unchanged |
| `JsonViewerOverlay.HandleNext` | src/components/json-viewer-overlay.tsx:38-45 | when `selectedIndex < data.length - 1`, `json_viewer` becomes `(selectedIndex+1)*numCols` and nothing else changes; otherwise the state is unchanged |
| `JsonViewerOverlay.HandleKeyDown` | src/components/json-viewer-overlay.tsx:55-63 | a key other than Escape, ArrowLeft, ArrowRight leaves the state unchanged |
| `JsonViewerOverlay.KeysMatchButtons` | src/components/json-viewer-overlay.tsx:55-63 | Escape runs close, ArrowLeft runs previous, ArrowRight runs next |
| `JsonViewerOverlay.NavigationLandsOnRowStart` | src/components/json-viewer-overlay.tsx:29-45 | a previous/next move that happens opens row `selectedIndex ∓ 1` / `± 1` at column 0 |
| `JsonViewerOverlay.HandlerChangesStateIffEnabled` | src/components/json-viewer-overlay.tsx:29-45 | with the overlay on the row its address decodes to, a handler changes the search state iff its guard (`hasPrev`, `hasNext`, always for close) holds |
| `JsonViewerOverlay.Entries` | src/components/json-viewer-overlay.tsx:167-180 | one entry per field, in the row's `Object.entries` order, with the field's key and value; shown as JSON iff the value is null, an array or an object; distinct keys give distinct entries |
| `JsonViewerOverlay.Render` | src/components/json-viewer-overlay.tsx:69-183 | nothing iff `data[selectedIndex]` does not exist; otherwise a view of that record |
| `JsonViewerOverlay.ButtonsMatchGuards` | src/components/json-viewer-overlay.tsx:71-160 | every intent has a button, and each button is invisible iff its handler's guard is false |
| `JsonViewerOverlay.PanelListsFields` | src/components/json-viewer-overlay.tsx:165-176 | the panel is labelled `selectedIndex + 1` and mirrors the record's fields in `Object.entries` order, each key once when the record's keys are distinct, JSON for object-typed values, `String` for the rest |
| `JsonViewerOverlay.PersonShownAsText` | src/components/json-viewer-overlay.tsx:172-176 | every field of a generated record is shown as text |
| `PaginatedRoute.ValidateSearch` | src/routes/paginated/route.tsx:25-28 | `p` is present afterwards, defaulting to 0 when missing; every other parameter, `json_viewer` included, passes through |
| `PaginatedRoute.CellId` | src/routes/paginated/route.tsx:63-72 | the id of the cell at row `r >= 0`, column `0 <= c < 4` is non-negative and decodes to `(r, c)` |
| `PaginatedRoute.Selected` | src/routes/paginated/route.tsx:110-116 | no selection iff `json_viewer` is absent; otherwise the floor-decoded cell, which re-encodes to the address when it is non-negative |
| `PaginatedRoute.GoToPage` | src/routes/paginated/route.tsx:120-125 | `p` becomes the new page; every other parameter is unchanged |
| `PaginatedRoute.GoToPageKeepsSelection` | src/routes/paginated/route.tsx:120-125 | changing page does not change the open cell |
| `PaginatedRoute.AddressZeroIsOpen` | src/routes/paginated/route.tsx:111 | address 0 selects cell (0, 0); only an absent `json_viewer` means closed |
| `PaginatedRoute.ClickOpensCell` | src/routes/paginated/route.tsx:63-72 | clicking the JSON cell of column 1 or 2 of row `r >= 0` selects exactly `(r, column)` |
| `Session.PaginatedViewer.constructor` | src/routes/paginated/route.tsx:38-41 | the session starts with the given data and the validated search state |
| `Session.PaginatedViewer.ClickJsonCell` | src/components/cells.tsx:25-30 | the search becomes the click's update, and the overlay opens on the decoded row |
| `Session.PaginatedViewer.GoToPage` | src/routes/paginated/route.tsx:120-125 | the search becomes the `goToPage` update; the open row is unchanged |
| `Session.PaginatedViewer.Refresh` | src/routes/paginated/route.tsx:43-45 | the data is replaced and the search state is untouched |
| `Session.PaginatedViewer.Press` | src/components/json-viewer-overlay.tsx:19-45 | for a mounted overlay whose record exists, the search becomes the pressed handler's update; close unmounts the overlay; previous and next move the open row by one exactly when `hasPrev`/`hasNext` hold, otherwise keep it |
| `Session.PaginatedViewer.KeyDown` | src/components/json-viewer-overlay.tsx:54-67 | the search becomes the dispatched handler's update, whether or not the record exists |

## Left out

- Sample-based schema inference: no file of the repository implements it, so it is not part of this model.
- `src/routes/index.tsx`: its only logic is the same cell-id encode as the paginated route. The rest is virtualizer setup and markup.
- `src/components/column-header.tsx` and `src/routes/__root.tsx`: static markup, routing and devtools.
- `Cell` (src/components/cells.tsx:5-15) renders text and has no handler, so it has no transition in the model.
- Table-library behaviour is not modelled:
  - sorting, resizing and the page count (`getPageCount`);
  - the enabled state of the page-level Previous/Next buttons;
  - `row.index`.
  
  `totalPages` and the data are parameters. `row.index` is taken to be the index into `data`.
- The search schema's number parsing is not modelled. Parameters are integers, so non-integer numbers and the rejection of non-numbers are out. Whether the router strips unknown parameters is library behaviour. The updaters are stated over whatever parameters `prev` holds.
- Floating point: `og_language_score` is a `real` taken from the generator. Its float formatting is out.
- The text produced by `JSON.stringify` and `String` is out. Only the choice between the two is modelled.
- The clipboard copy is out.
- Registering and removing the keydown listener is out. Only its dispatch is modelled. The listener is re-created only when `selectedIndex` changes, so it can see an older `data` or `numCols`. The model gives the listener the current ones.
- JsonViewerOverlay.HandlerChangesStateIffEnabled holds for the model's exact integers. JavaScript numbers are doubles, so it is stated only where that arithmetic is exact: addresses, row indices and pages below 2^53. Above that, for example `json_viewer = 2^56`, `selectedIndex - 1` rounds back to `selectedIndex`, so `handlePrev` rewrites the same address even though `hasPrev` holds. The same limit applies to `CellAddress.Decode`, `JsonViewerOverlay.HandlePrev`, `JsonViewerOverlay.HandleNext` and `PaginatedRoute.GoToPage`.
- JsonViewerOverlay.PanelListsFields: `Object.entries` lists integer-like keys first, in ascending numeric order, and then the other keys in insertion order. The model does not compute that reordering. A `Row` is taken to be already in `Object.entries` order, so the panel is stated to follow the row's order. Generated `Person` records have no integer-like keys, so for them this is the order of the object literal.
- A record (`Row`) is a list of fields, and nothing stops two fields from sharing a key. A JavaScript object holds each key once, so "each key once" is stated for rows with distinct keys (`Utils.DistinctKeys`). Every generated record has distinct keys.
- Faker's random output is a parameter, `draw(k)` for the k-th record. Which values it produces is out.
- CSS, layout, highlighting of the current page button, icons and the rest of the markup are out.
