/** Turning one rendered table row of the pending-orders page into an
    order record (user/index.js:93-116 and user/captureProduct.js:42-58).
    The two scripts build the same record and differ in one place only:
    the value produced when a cell lacks the sub-element being asked for. */
module OrderRows {
  import opened JsText

  /** A table cell: its rendered text, its markup, and, for each CSS
      selector that matches inside it, the rendered text of the first
      matching descendant (what querySelector(sel).innerText gives). */
  datatype Cell = Cell(innerText: string, innerHTML: string, firstMatch: map<string, string>)

  /** A table row, as the list of its `td` cells. */
  type Row = seq<Cell>

  /** Which of the two harvesting scripts does the extraction. */
  datatype Script =
    | PendingPanel    // user/index.js
    | ProductCapture  // user/captureProduct.js

  datatype Order = Order(
    orderId: JsValue,
    productDetails: JsValue,
    subOrderId: JsValue,
    skuId: JsValue,
    meeshoId: JsValue,
    quantity: JsValue,
    size: JsValue,
    dispatchDate: JsValue)

  const OrderIdSelector := "p.css-h01pe0"
  const ProductSelector := "p.css-af4iif"
  const DispatchSelector := "p.css-1bdm8tg"
  const OrderIdLabel := "Order ID: "

  /** The text the cell lookup reads, when the element it reads exists. */
  function SourceText(cells: Row, i: nat, sel: Option<string>): Option<string> {
    if i >= |cells| then None
    else if sel.None? then Some(cells[i].innerText)
    else if sel.value in cells[i].firstMatch then Some(cells[i].firstMatch[sel.value])
    else None
  }

  /** getCellText (user/index.js:95-102) and getText
      (user/captureProduct.js:44-47): the trimmed text of cell `i`, or of
      the first element matching `sel` inside it. A missing cell gives
      null; a missing sub-element gives null in index.js but undefined in
      captureProduct.js, where `?.` short-circuits. */
  function CellText(script: Script, cells: Row, i: nat, sel: Option<string>): (v: JsValue)
    ensures v.Str? <==> SourceText(cells, i, sel).Some?
    ensures v.Str? ==> v.s == Trim(SourceText(cells, i, sel).value) && Trimmed(v.s)
    ensures v.Null? <==> i >= |cells| || (script == PendingPanel && SourceText(cells, i, sel).None?)
  {
    if i >= |cells| then Null
    else match sel
      case None => Str(Trim(cells[i].innerText))
      case Some(q) =>
        if q in cells[i].firstMatch then Str(Trim(cells[i].firstMatch[q]))
        else if script == PendingPanel then Null
        else Undefined
  }

  /** The two scripts disagree on a field exactly when the cell exists but
      the sub-element it is read from does not. */
  lemma ScriptsDifferOnlyOnMissingSubElement(cells: Row, i: nat, sel: Option<string>)
    ensures CellText(PendingPanel, cells, i, sel) != CellText(ProductCapture, cells, i, sel)
        <==> i < |cells| && sel.Some? && sel.value !in cells[i].firstMatch
  {
  }

  /** `text?.replace("Order ID: ", "").trim()` (user/index.js:105-107,
      user/captureProduct.js:49): the label's first occurrence is removed
      and the rest trimmed; a null or undefined text gives undefined. */
  function NormaliseOrderId(v: JsValue): (r: JsValue)
    ensures r.Undefined? <==> !v.Str?
    ensures r.Str? ==> Trimmed(r.s)
  {
    match v
    case Str(s) => Str(Trim(ReplaceFirst(s, OrderIdLabel, "")))
    case _ => Undefined
  }

  /** A labelled id loses exactly its label and surrounding blanks. */
  lemma NormaliseLabelledOrderId(x: string)
    ensures NormaliseOrderId(Str(OrderIdLabel + x)) == Str(Trim(x))
  {
    ReplaceFirstOfPrefixed(OrderIdLabel, x);
  }

  /** An id without the label is only trimmed. */
  lemma NormaliseUnlabelledOrderId(s: string)
    requires !Includes(s, OrderIdLabel)
    ensures NormaliseOrderId(Str(s)) == Str(Trim(s))
  {
    assert ReplaceFirst(s, OrderIdLabel, "") == s;
  }

  /** What a field read from the element matching `sel` inside cell `i`
      holds: null without the cell; without the element, null in index.js
      and undefined in captureProduct.js; otherwise the element's trimmed
      text. */
  ghost predicate IsSubElementField(v: JsValue, script: Script, cells: Row, i: nat, sel: string) {
    if i >= |cells| then v == Null
    else if sel !in cells[i].firstMatch then v == (if script == PendingPanel then Null else Undefined)
    else v == Str(Trim(cells[i].firstMatch[sel]))
  }

  /** The record built for one row (user/index.js:104-115,
      user/captureProduct.js:48-57). It never fails: every field tolerates
      its cell or sub-element being absent. */
  function RowToOrder(script: Script, cells: Row): (o: Order)
    ensures o.orderId.Undefined? <==> SourceText(cells, 1, Some(OrderIdSelector)).None?
    ensures o.orderId.Str? ==> Trimmed(o.orderId.s)
    ensures IsSubElementField(o.productDetails, script, cells, 1, ProductSelector)
    ensures o.subOrderId == (if 2 < |cells| then Str(Trim(cells[2].innerText)) else Null)
    ensures o.skuId == (if 3 < |cells| then Str(Trim(cells[3].innerText)) else Null)
    ensures o.meeshoId == (if 4 < |cells| then Str(Trim(cells[4].innerText)) else Null)
    ensures o.quantity == (if 5 < |cells| then Str(Trim(cells[5].innerText)) else Null)
    ensures o.size == (if 6 < |cells| then Str(Trim(cells[6].innerText)) else Null)
    ensures IsSubElementField(o.dispatchDate, script, cells, 7, DispatchSelector)
  {
    Order(
      orderId := NormaliseOrderId(CellText(script, cells, 1, Some(OrderIdSelector))),
      productDetails := CellText(script, cells, 1, Some(ProductSelector)),
      subOrderId := CellText(script, cells, 2, None),
      skuId := CellText(script, cells, 3, None),
      meeshoId := CellText(script, cells, 4, None),
      quantity := CellText(script, cells, 5, None),
      size := CellText(script, cells, 6, None),
      dispatchDate := CellText(script, cells, 7, Some(DispatchSelector)))
  }

  /** The label followed by a trimmed, non-empty id has nothing to trim. */
  lemma LabelledIsTrimmed(x: string)
    requires x != [] && Trimmed(x)
    ensures Trimmed(OrderIdLabel + x)
  {
    var t := OrderIdLabel + x;
    assert t[0] == 'O';
    assert t[|t| - 1] == x[|x| - 1];
  }

  /** A row whose id element reads `"Order ID: " + x`, for a trimmed,
      non-empty `x`, is stored under the id `x`. */
  lemma RowOrderIdOfLabel(script: Script, cells: Row, x: string)
    requires 1 < |cells| && OrderIdSelector in cells[1].firstMatch
    requires cells[1].firstMatch[OrderIdSelector] == OrderIdLabel + x
    requires x != [] && Trimmed(x)
    ensures RowToOrder(script, cells).orderId == Str(x)
  {
    LabelledIsTrimmed(x);
    TrimOfTrimmed(OrderIdLabel + x);
    assert CellText(script, cells, 1, Some(OrderIdSelector)) == Str(OrderIdLabel + x);
    NormaliseLabelledOrderId(x);
    TrimOfTrimmed(x);
  }

  /** The `$$eval` callback: one record per visible row, in DOM order. */
  function Extract(script: Script, rows: seq<Row>): seq<Order> {
    seq(|rows|, i requires 0 <= i < |rows| => RowToOrder(script, rows[i]))
  }

  /** The batches extracted at each iteration of a harvesting loop whose
      page shows the rows `pages[t]` at iteration `t`. */
  function ExtractAll(script: Script, pages: seq<seq<Row>>): seq<seq<Order>> {
    seq(|pages|, t requires 0 <= t < |pages| => Extract(script, pages[t]))
  }
}
