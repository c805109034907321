/** The pending-orders scrape of user/scrapePandingOrder.js: the
    auto-scroll that waits for five unchanged scroll heights in a row, and
    the one-pass row mapping that numbers the rows in DOM order and turns
    empty texts into null. */
module PendingScrape {
  import opened JsText
  import opened OrderRows

  const SameCountLimit := 5

  /** The two variables the auto-scroll loop updates. */
  datatype Tracker = Tracker(retry: nat, previousHeight: int)

  /** One loop turn after reading `currentHeight`
      (user/scrapePandingOrder.js:141-149). */
  function Step(tr: Tracker, currentHeight: int): Tracker {
    if currentHeight == tr.previousHeight then Tracker(tr.retry + 1, tr.previousHeight)
    else Tracker(0, currentHeight)
  }

  /** The loop variables after the readings `heights`, starting from
      `previousHeight = 0` and `retry = 0`. */
  function Track(heights: seq<int>): Tracker
    decreases |heights|
  {
    if heights == [] then Tracker(0, 0)
    else Step(Track(heights[..|heights| - 1]), heights[|heights| - 1])
  }

  /** Reading `j` equals the height remembered before it: the previous
      reading, or 0 for the first. */
  predicate Unchanged(heights: seq<int>, j: nat)
    requires j < |heights|
  {
    heights[j] == if j == 0 then 0 else heights[j - 1]
  }

  /** `previousHeight` always holds the latest reading (0 before any). */
  lemma {:induction false} TrackRemembersLast(heights: seq<int>)
    ensures Track(heights).previousHeight == if heights == [] then 0 else heights[|heights| - 1]
    decreases |heights|
  {
    if heights != [] {
      var init := heights[..|heights| - 1];
      TrackRemembersLast(init);
    }
  }

  /** `retry` counts the unchanged readings at the end: it is at least `r`
      exactly when the last `r` readings were all unchanged. */
  lemma {:induction false} TrackCountsUnchanged(heights: seq<int>, r: nat)
    requires r <= |heights|
    ensures Track(heights).retry >= r <==> forall j :: |heights| - r <= j < |heights| ==> Unchanged(heights, j)
    decreases |heights|
  {
    if r > 0 {
      var n := |heights|;
      var init := heights[..n - 1];
      TrackRemembersLast(init);
      assert Unchanged(heights, n - 1) <==> heights[n - 1] == Track(init).previousHeight;
      TrackCountsUnchanged(init, r - 1);
      forall j | n - r <= j < n - 1
        ensures Unchanged(heights, j) <==> Unchanged(init, j)
      {
      }
    }
  }

  /** `retry` is never more than the number of readings. */
  lemma {:induction false} TrackRetryBound(heights: seq<int>)
    ensures Track(heights).retry <= |heights|
    decreases |heights|
  {
    if heights != [] {
      TrackRetryBound(heights[..|heights| - 1]);
    }
  }

  /** The loop stops after reading `k` readings. */
  predicate StopsAt(heights: seq<int>, k: nat)
    requires k <= |heights|
  {
    Track(heights[..k]).retry >= SameCountLimit
  }

  /** While the loop runs, the stopping point is still ahead, so another
      reading exists. */
  lemma StopIsAhead(heights: seq<int>, n: nat)
    requires n <= |heights|
    requires exists k :: 0 <= k <= |heights| && StopsAt(heights, k)
    requires forall k :: 0 <= k <= n ==> !StopsAt(heights, k)
    ensures n < |heights|
  {
    var k :| 0 <= k <= |heights| && StopsAt(heights, k);
    assert n < k;
  }

  /** Where the loop stops, the last five readings were unchanged. */
  lemma LastReadingsUnchanged(heights: seq<int>, n: nat)
    requires n <= |heights| && StopsAt(heights, n)
    ensures SameCountLimit <= n
    ensures forall j :: n - SameCountLimit <= j < n ==> Unchanged(heights, j)
  {
    var prefix := heights[..n];
    TrackRetryBound(prefix);
    TrackCountsUnchanged(prefix, SameCountLimit);
    forall j | n - SameCountLimit <= j < n
      ensures Unchanged(heights, j)
    {
      assert Unchanged(prefix, j);
    }
  }

  /** autoScrollUntilEnd (user/scrapePandingOrder.js:125-152): without a
      scroll container it returns at once, before any scroll. Otherwise it
      scrolls and reads the height until `retry` reaches 5, so it takes
      exactly the readings up to the first point where the last five were
      unchanged. The loop has no cap: `heights` are the readings the page
      gives, and it must contain such a point for the loop to end. */
  method AutoScrollUntilEnd(containerFound: bool, heights: seq<int>) returns (readings: nat)
    requires containerFound ==> exists k :: 0 <= k <= |heights| && StopsAt(heights, k)
    ensures !containerFound ==> readings == 0
    ensures containerFound ==> readings <= |heights| && StopsAt(heights, readings)
    ensures containerFound ==> forall k :: 0 <= k < readings ==> !StopsAt(heights, k)
    ensures containerFound ==> SameCountLimit <= readings
    ensures containerFound ==> forall j :: readings - SameCountLimit <= j < readings ==> Unchanged(heights, j)
  {
    if !containerFound {
      return 0;
    }
    var previousHeight := 0;
    var retry := 0;
    readings := 0;
    while retry < SameCountLimit
      invariant readings <= |heights|
      invariant Track(heights[..readings]) == Tracker(retry, previousHeight)
      invariant forall k :: 0 <= k < readings ==> !StopsAt(heights, k)
      decreases |heights| - readings
    {
      assert !StopsAt(heights, readings);
      StopIsAhead(heights, readings);
      var currentHeight := heights[readings];
      assert heights[..readings + 1][..readings] == heights[..readings];
      if currentHeight == previousHeight {
        retry := retry + 1;
      } else {
        retry := 0;
        previousHeight := currentHeight;
      }
      readings := readings + 1;
    }
    LastReadingsUnchanged(heights, readings);
  }

  /** One field of the scrape: `cells[i]?.innerText.trim() || null`
      (for `DispatchDate`, innerHTML): the trimmed text when the cell exists
      and that text is not empty, and null otherwise. */
  function TextOrNull(cells: Row, i: nat, html: bool): (v: JsValue)
    ensures v.Null? || v.Str?
    ensures v.Str? <==> i < |cells| && Trim(if html then cells[i].innerHTML else cells[i].innerText) != ""
    ensures v.Str? ==> v.s == Trim(if html then cells[i].innerHTML else cells[i].innerText) && Trimmed(v.s)
  {
    if i >= |cells| then Null
    else
      var t := Trim(if html then cells[i].innerHTML else cells[i].innerText);
      if t != "" then Str(t) else Null
  }

  /** `Array.from(cells).map((td) => td.innerText.trim())`. */
  function DebugInfo(cells: Row): seq<string> {
    seq(|cells|, i requires 0 <= i < |cells| => Trim(cells[i].innerText))
  }

  /** A record of the scrape (user/scrapePandingOrder.js:197-208). */
  datatype PendingOrder = PendingOrder(
    index: nat,
    productDetails: JsValue,
    subOrderId: JsValue,
    skuId: JsValue,
    meeshoId: JsValue,
    quantity: JsValue,
    size: JsValue,
    DispatchDate: JsValue,
    debugInfo: seq<string>)

  function PendingRecord(cells: Row, index: nat): PendingOrder {
    PendingOrder(
      index := index,
      productDetails := TextOrNull(cells, 1, false),
      subOrderId := TextOrNull(cells, 2, false),
      skuId := TextOrNull(cells, 3, false),
      meeshoId := TextOrNull(cells, 4, false),
      quantity := TextOrNull(cells, 5, false),
      size := TextOrNull(cells, 6, false),
      DispatchDate := TextOrNull(cells, 7, true),
      debugInfo := DebugInfo(cells))
  }

  /** The records of the rows `rows`, numbered from 1 in row order. */
  function PendingRecords(rows: seq<Row>): seq<PendingOrder> {
    Numbering(PendingRecord, rows)
  }

  /** The `$$eval` callback (user/scrapePandingOrder.js:191-210): one
      record per row, in DOM order, numbered by the counter `index` that
      starts at 1 and is incremented once per row; no row is dropped or
      merged. */
  method MapPendingRows(rows: seq<Row>) returns (orders: seq<PendingOrder>)
    ensures orders == PendingRecords(rows)
  {
    var index := 1;
    orders := [];
    for r := 0 to |rows|
      invariant index == r + 1
      invariant orders == PendingRecords(rows[..r])
    {
      assert rows[..r + 1][..r] == rows[..r];
      orders := orders + [PendingRecord(rows[r], index)];
      index := index + 1;
    }
    assert rows[..|rows|] == rows;
  }

  /** What `|| null` leaves in a field: null, or non-empty trimmed text;
      never undefined and never the empty string. */
  predicate NullOrText(v: JsValue) {
    v.Null? || (v.Str? && v.s != "" && Trimmed(v.s))
  }

  /** The scrape keeps every row: record `i` belongs to row `i`, its index
      is `i + 1`, so the indices are 1..n in DOM order; its text fields are
      read from cells 1 to 7 of row `i` (innerHTML for the dispatch date)
      and each is null or non-empty trimmed text; and the debug list has
      one trimmed entry per cell of the row. */
  lemma PendingRecordsNumbered(rows: seq<Row>)
    ensures |PendingRecords(rows)| == |rows|
    ensures forall i :: 0 <= i < |rows| ==> PendingRecords(rows)[i].index == i + 1
    ensures forall i :: 0 <= i < |rows| ==> var o := PendingRecords(rows)[i];
      && NullOrText(o.productDetails) && NullOrText(o.subOrderId) && NullOrText(o.skuId)
      && NullOrText(o.meeshoId) && NullOrText(o.quantity) && NullOrText(o.size)
      && NullOrText(o.DispatchDate)
    ensures forall i :: 0 <= i < |rows| ==> var o := PendingRecords(rows)[i];
      && o.productDetails == TextOrNull(rows[i], 1, false)
      && o.subOrderId == TextOrNull(rows[i], 2, false)
      && o.skuId == TextOrNull(rows[i], 3, false)
      && o.meeshoId == TextOrNull(rows[i], 4, false)
      && o.quantity == TextOrNull(rows[i], 5, false)
      && o.size == TextOrNull(rows[i], 6, false)
      && o.DispatchDate == TextOrNull(rows[i], 7, true)
    ensures forall i :: 0 <= i < |rows| ==> |PendingRecords(rows)[i].debugInfo| == |rows[i]|
    ensures forall i, j :: 0 <= i < |rows| && 0 <= j < |rows[i]| ==>
      PendingRecords(rows)[i].debugInfo[j] == Trim(rows[i][j].innerText)
  {
    forall i | 0 <= i < |rows|
      ensures PendingRecords(rows)[i] == PendingRecord(rows[i], i + 1)
    {
      NumberingAt(PendingRecord, rows, i);
    }
  }
}
