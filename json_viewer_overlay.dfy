/**
 * The JSON inspector overlay: the record at `selectedIndex`, previous/next
 * navigation by whole rows (always landing on column 0), closing, the
 * keyboard dispatch, and the context panel listing the record's fields.
 */
module JsonViewerOverlay {
  import opened Wrappers
  import opened SearchParams
  import opened Utils
  import CellAddress

  /** What a control or a key asks the overlay to do. */
  datatype Intent = Close | Prev | Next

  /** `hasPrev`: a record precedes the selected one. */
  predicate HasPrev(selectedIndex: int) {
    selectedIndex > 0
  }

  /** `hasNext`: a record follows the selected one. */
  predicate HasNext(selectedIndex: int, rowCount: int) {
    selectedIndex < rowCount - 1
  }

  /** Whether an intent's handler does anything. */
  predicate Enabled(intent: Intent, selectedIndex: int, rowCount: int) {
    match intent
    case Close => true
    case Prev => HasPrev(selectedIndex)
    case Next => HasNext(selectedIndex, rowCount)
  }

  /** `handleClose`: drop `json_viewer`, keep every other parameter. */
  function HandleClose(s: Search): (r: Search)
    ensures ViewerKey !in r
    ensures AgreeExcept(s, r, ViewerKey)
  {
    Drop(s, ViewerKey)
  }

  /** `handlePrev`: open column 0 of the previous row, if there is one. */
  function HandlePrev(s: Search, selectedIndex: int, numCols: int): (r: Search)
    ensures HasPrev(selectedIndex) ==>
      ViewerKey in r && r[ViewerKey] == CellAddress.Encode(selectedIndex - 1, 0, numCols) && AgreeExcept(s, r, ViewerKey)
    ensures !HasPrev(selectedIndex) ==> r == s
  {
    if HasPrev(selectedIndex) then Put(s, ViewerKey, (selectedIndex - 1) * numCols) else s
  }

  /** `handleNext`: open column 0 of the next row, if there is one. */
  function HandleNext(s: Search, selectedIndex: int, rowCount: int, numCols: int): (r: Search)
    ensures HasNext(selectedIndex, rowCount) ==>
      ViewerKey in r && r[ViewerKey] == CellAddress.Encode(selectedIndex + 1, 0, numCols) && AgreeExcept(s, r, ViewerKey)
    ensures !HasNext(selectedIndex, rowCount) ==> r == s
  {
    if HasNext(selectedIndex, rowCount) then Put(s, ViewerKey, (selectedIndex + 1) * numCols) else s
  }

  /** The handler an intent runs. */
  function Handle(intent: Intent, s: Search, selectedIndex: int, rowCount: int, numCols: int): Search {
    match intent
    case Close => HandleClose(s)
    case Prev => HandlePrev(s, selectedIndex, numCols)
    case Next => HandleNext(s, selectedIndex, rowCount, numCols)
  }

  /** The keys the keydown listener reacts to. */
  function KeyIntent(key: string): (r: Option<Intent>)
    ensures r == Some(Close) <==> key == "Escape"
    ensures r == Some(Prev) <==> key == "ArrowLeft"
    ensures r == Some(Next) <==> key == "ArrowRight"
    ensures r.None? <==> key !in {"Escape", "ArrowLeft", "ArrowRight"}
  {
    if key == "Escape" then Some(Close)
    else if key == "ArrowLeft" then Some(Prev)
    else if key == "ArrowRight" then Some(Next)
    else None
  }

  /** `handleKeyDown`: dispatch a key to its handler; other keys do nothing. */
  function HandleKeyDown(key: string, s: Search, selectedIndex: int, rowCount: int, numCols: int): (r: Search)
    ensures KeyIntent(key).None? ==> r == s
  {
    match KeyIntent(key)
    case None => s
    case Some(intent) => Handle(intent, s, selectedIndex, rowCount, numCols)
  }

  /** Escape closes, ArrowLeft and ArrowRight act as the previous and next buttons. */
  lemma KeysMatchButtons(s: Search, selectedIndex: int, rowCount: int, numCols: int)
    ensures HandleKeyDown("Escape", s, selectedIndex, rowCount, numCols) == HandleClose(s)
    ensures HandleKeyDown("ArrowLeft", s, selectedIndex, rowCount, numCols) == HandlePrev(s, selectedIndex, numCols)
    ensures HandleKeyDown("ArrowRight", s, selectedIndex, rowCount, numCols) == HandleNext(s, selectedIndex, rowCount, numCols)
  {
  }

  /**
   * A previous/next move that happens lands on the neighbouring row,
   * at column 0, whatever column was open.
   */
  lemma NavigationLandsOnRowStart(intent: Intent, s: Search, selectedIndex: int, rowCount: int, numCols: int)
    requires numCols > 0 && intent != Close && Enabled(intent, selectedIndex, rowCount)
    ensures var r := Handle(intent, s, selectedIndex, rowCount, numCols);
      ViewerKey in r &&
      CellAddress.Decode(r[ViewerKey], numCols) ==
        CellAddress.Cell(if intent == Prev then selectedIndex - 1 else selectedIndex + 1, 0)
  {
    if intent == Prev {
      CellAddress.DecodeRowStart(selectedIndex - 1, numCols);
    } else {
      CellAddress.DecodeRowStart(selectedIndex + 1, numCols);
    }
  }

  /**
   * While the overlay is open on the row its address decodes to, a handler
   * changes the search state exactly when its intent is enabled: the guards
   * `hasPrev` and `hasNext` are the whole story.
   */
  lemma HandlerChangesStateIffEnabled(intent: Intent, s: Search, rowCount: int, numCols: int)
    requires numCols > 0 && ViewerKey in s
    ensures var selectedIndex := CellAddress.Decode(s[ViewerKey], numCols).row;
      Handle(intent, s, selectedIndex, rowCount, numCols) != s <==> Enabled(intent, selectedIndex, rowCount)
  {
    var selectedIndex := CellAddress.Decode(s[ViewerKey], numCols).row;
    var r := Handle(intent, s, selectedIndex, rowCount, numCols);
    if intent != Close && Enabled(intent, selectedIndex, rowCount) {
      NavigationLandsOnRowStart(intent, s, selectedIndex, rowCount, numCols);
      assert CellAddress.Decode(r[ViewerKey], numCols).row != selectedIndex;
    }
  }

  /** How the context panel shows a value: as JSON text or through `String`. */
  datatype Display = AsJson(value: Json) | AsText(value: Json)

  /** One field of the context panel: its key heading and its value. */
  datatype Entry = Entry(key: string, display: Display)

  /** The context panel: the 1-based record number and one entry per field. */
  datatype Panel = Panel(recordNumber: int, entries: seq<Entry>)

  /** A button of the overlay, with the handler it runs and whether it is hidden. */
  datatype Button = Button(intent: Intent, invisible: bool)

  /** What the overlay renders when its record exists. */
  datatype View = View(record: Row, buttons: seq<Button>, panel: Panel)

  /** `typeof value === "object"`: true of null, arrays and objects. */
  predicate IsObjectTyped(v: Json) {
    v.JNull? || v.JArray? || v.JObject?
  }

  function Show(v: Json): (d: Display)
    ensures d.value == v
    ensures d.AsJson? <==> IsObjectTyped(v)
  {
    if IsObjectTyped(v) then AsJson(v) else AsText(v)
  }

  /** `Object.entries(currentRow).map(...)`: one entry per field, in order. */
  function Entries(row: Row): (es: seq<Entry>)
    ensures |es| == |row|
    ensures forall i :: 0 <= i < |row| ==> es[i].key == row[i].key && es[i].display.value == row[i].value
    ensures forall i :: 0 <= i < |row| ==> (es[i].display.AsJson? <==> IsObjectTyped(row[i].value))
    ensures DistinctKeys(row) ==> forall i, j :: 0 <= i < j < |es| ==> es[i].key != es[j].key
  {
    if row == [] then [] else [Entry(row[0].key, Show(row[0].value))] + Entries(row[1..])
  }

  function ContextPanel(row: Row, selectedIndex: int): Panel {
    Panel(selectedIndex + 1, Entries(row))
  }

  /**
   * The overlay: nothing when `data[selectedIndex]` does not exist;
   * otherwise the record, the desktop and mobile previous buttons, the
   * mobile and desktop next buttons, the close button, and the panel.
   */
  function Render(data: seq<Row>, selectedIndex: int): (v: Option<View>)
    ensures v.None? <==> !(0 <= selectedIndex < |data|)
    ensures v.Some? ==> v.value.record == data[selectedIndex]
  {
    if 0 <= selectedIndex < |data| then
      var hidePrev, hideNext := !HasPrev(selectedIndex), !HasNext(selectedIndex, |data|);
      Some(View(
        data[selectedIndex],
        [Button(Prev, hidePrev), Button(Prev, hidePrev), Button(Next, hideNext), Button(Next, hideNext), Button(Close, false)],
        ContextPanel(data[selectedIndex], selectedIndex)))
    else
      None
  }

  /**
   * For a record that is shown, `hasPrev` and `hasNext` say exactly whether
   * the overlay would show a record one row up or one row down.
   */
  lemma FlagsMatchNeighbours(data: seq<Row>, selectedIndex: int)
    requires Render(data, selectedIndex).Some?
    ensures HasPrev(selectedIndex) <==> Render(data, selectedIndex - 1).Some?
    ensures HasNext(selectedIndex, |data|) <==> Render(data, selectedIndex + 1).Some?
  {
  }

  predicate HasButtonFor(buttons: seq<Button>, intent: Intent) {
    exists b :: b in buttons && b.intent == intent
  }

  /**
   * Every intent has a button, and a button is hidden exactly when its
   * handler would do nothing.
   */
  lemma ButtonsMatchGuards(data: seq<Row>, selectedIndex: int)
    requires Render(data, selectedIndex).Some?
    ensures var buttons := Render(data, selectedIndex).value.buttons;
      && (forall b :: b in buttons ==> (b.invisible <==> !Enabled(b.intent, selectedIndex, |data|)))
      && (forall intent: Intent :: HasButtonFor(buttons, intent))
  {
    var buttons := Render(data, selectedIndex).value.buttons;
    forall intent: Intent ensures HasButtonFor(buttons, intent) {
      var k := match intent case Prev => 0 case Next => 2 case Close => 4;
      assert buttons[k].intent == intent;
    }
  }

  /**
   * The context panel is labelled with the 1-based record number and lists
   * every key of the record once, in `Object.entries` order; a value is shown as
   * JSON exactly when it is null, an array or an object.
   */
  lemma PanelListsFields(data: seq<Row>, selectedIndex: int)
    requires Render(data, selectedIndex).Some?
    ensures var p := Render(data, selectedIndex).value.panel;
      var row := data[selectedIndex];
      && p.recordNumber == selectedIndex + 1
      && |p.entries| == |row|
      && (forall i :: 0 <= i < |row| ==> p.entries[i].key == row[i].key)
      && (DistinctKeys(row) ==> forall i, j :: 0 <= i < j < |row| ==> p.entries[i].key != p.entries[j].key)
      && (forall i :: 0 <= i < |row| ==> (p.entries[i].display == AsJson(row[i].value) <==> IsObjectTyped(row[i].value)))
      && (forall i :: 0 <= i < |row| ==> (p.entries[i].display == AsText(row[i].value) <==> !IsObjectTyped(row[i].value)))
  {
  }

  /** A generated record has no null, array or object field: the panel shows it all as text. */
  lemma PersonShownAsText(p: Person)
    ensures forall e :: e in Entries(ToRow(p)) ==> e.display.AsText?
  {
  }
}
