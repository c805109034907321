/** The product-capture run of user/captureProduct.js: up to 40 iterations
    that extract the visible rows, merge them first-seen-wins, scroll the
    table to its bottom and stop as soon as an iteration leaves the map's
    size where the previous one left it. The output is the map's values in
    insertion order, without an index field. */
module CaptureProduct {
  import opened JsText
  import opened OrderRows
  import opened OrderStore

  const MaxAttempts := 40

  /** The attempt loop of user/captureProduct.js:37-88. `batches[t]` is
      what the row extraction returned at attempt `t`. The loop runs at
      least one and at most 40 attempts; every attempt but the last changed
      the map's size, and the last one, unless it was the 40th, did not.
      `previousRowCount` starts at 0, so the first attempt is compared with
      the empty map. */
  method CaptureLoop(batches: seq<seq<Order>>) returns (st: Store, rounds: nat)
    requires |batches| >= MaxAttempts
    ensures 1 <= rounds <= MaxAttempts
    ensures forall j :: 0 <= j < rounds - 1 ==> Size(MergeRounds(batches, j + 1)) != Size(MergeRounds(batches, j))
    ensures rounds < MaxAttempts ==> Size(MergeRounds(batches, rounds)) == Size(MergeRounds(batches, rounds - 1))
    ensures st == MergeRounds(batches, rounds)
  {
    var ordersMap := new OrdersMap();
    var previousRowCount := 0;
    rounds := 0;
    for attempt := 0 to MaxAttempts
      invariant rounds == attempt
      invariant ordersMap.State() == MergeRounds(batches, attempt)
      invariant previousRowCount == Size(MergeRounds(batches, attempt))
      invariant forall j :: 0 <= j < attempt ==> Size(MergeRounds(batches, j + 1)) != Size(MergeRounds(batches, j))
    {
      rounds := attempt + 1;
      var newOrders := batches[attempt];
      MergeRoundsNext(batches, attempt);
      MergeRoundsValid(batches, attempt);
      var newCount := ordersMap.Merge(newOrders);
      var currentRowCount := ordersMap.Count();
      if currentRowCount == previousRowCount {
        break;
      }
      previousRowCount := currentRowCount;
    }
    st := ordersMap.State();
  }

  /** The size-based stop rule, put in terms of ids: when every round
      before round `n - 1` changed the size and round `n - 1` did not,
      every round before it stored an id not seen before and round `n - 1`
      offered only ids already stored. */
  lemma StopRuleInIds(batches: seq<seq<Order>>, n: nat)
    requires 1 <= n <= |batches|
    requires forall j :: 0 <= j < n - 1 ==> Size(MergeRounds(batches, j + 1)) != Size(MergeRounds(batches, j))
    requires Size(MergeRounds(batches, n)) == Size(MergeRounds(batches, n - 1))
    ensures forall j :: 0 <= j < n - 1 ==> !(BatchKeys(batches[j]) <= MergeRounds(batches, j).entries.Keys)
    ensures BatchKeys(batches[n - 1]) <= MergeRounds(batches, n - 1).entries.Keys
  {
    forall j | 0 <= j < n - 1
      ensures !(BatchKeys(batches[j]) <= MergeRounds(batches, j).entries.Keys)
    {
      RoundAddsNothingIff(batches, j);
    }
    RoundAddsNothingIff(batches, n - 1);
  }

  /** `previousRowCount` starts at 0: an attempt that offers no id at all
      stops the loop when it is the first. */
  lemma FirstRoundWithoutIdsStops(batches: seq<seq<Order>>)
    requires 1 <= |batches| && BatchKeys(batches[0]) == {}
    ensures Size(MergeRounds(batches, 1)) == Size(MergeRounds(batches, 0)) == 0
  {
    RoundAddsNothingIff(batches, 0);
  }

  /** The whole capture after navigation (user/captureProduct.js:33-91):
      the attempts end by the loop's stop rule, and the final orders are
      the values of the map left by those attempts, in insertion order,
      each with a truthy order id and no two with the same one. */
  method CaptureOrders(pages: seq<seq<Row>>) returns (finalOrders: seq<Order>, rounds: nat)
    requires |pages| >= MaxAttempts
    ensures 1 <= rounds <= MaxAttempts
    ensures forall j :: 0 <= j < rounds - 1 ==>
      Size(MergeRounds(ExtractAll(ProductCapture, pages), j + 1)) != Size(MergeRounds(ExtractAll(ProductCapture, pages), j))
    ensures rounds < MaxAttempts ==>
      Size(MergeRounds(ExtractAll(ProductCapture, pages), rounds)) == Size(MergeRounds(ExtractAll(ProductCapture, pages), rounds - 1))
    ensures Valid(MergeRounds(ExtractAll(ProductCapture, pages), rounds))
    ensures finalOrders == Values(MergeRounds(ExtractAll(ProductCapture, pages), rounds))
    ensures forall i, j :: 0 <= i < j < |finalOrders| ==> finalOrders[i].orderId != finalOrders[j].orderId
    ensures forall i :: 0 <= i < |finalOrders| ==> Truthy(finalOrders[i].orderId)
  {
    var st;
    st, rounds := CaptureLoop(ExtractAll(ProductCapture, pages));
    MergeRoundsValid(ExtractAll(ProductCapture, pages), rounds);
    ValuesHaveUniqueIds(st);
    finalOrders := Values(st);
  }
}
