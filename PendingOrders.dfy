/** The scroll-and-harvest run of user/index.js: re-login decision,
    container check, a bounded loop that extracts the visible rows, merges
    them first-seen-wins and scrolls by 800px until the container stops
    moving, and the 1-based numbering of the result. The browser is an
    oracle: `pages[t]` are the rows visible at iteration `t` and
    `scrolls[t]` is what the scroll call of that iteration observed. */
module PendingOrders {
  import opened JsText
  import opened OrderRows
  import opened OrderStore

  const MaxScrollAttempts := 20
  const LoginMarker := "login"

  /** What the in-page scroll function of user/index.js:134-141 sees: no
      container, or the container's scrollTop before and after scrollBy. */
  datatype ScrollReading = NoContainer | Moved(before: int, after: int)

  /** The value the scroll function returns. */
  predicate Scrolled(r: ScrollReading) {
    r.Moved? && r.after != r.before
  }

  datatype HarvestError = ContainerNotFound

  /** An order of the output file, `{ index, ...order }`. */
  datatype NumberedOrder = NumberedOrder(index: nat, order: Order)

  /** `page.url().includes("login")` (user/index.js:58, also
      user/scrapePandingOrder.js:169): log in again exactly when the page
      landed on a URL containing "login". */
  function ShouldLogIn(url: string): (b: bool)
    ensures b <==> exists i: nat :: MatchesAt(url, LoginMarker, i)
  {
    Includes(url, LoginMarker)
  }

  function NumberOrder(o: Order, index: nat): NumberedOrder {
    NumberedOrder(index, o)
  }

  /** `orders.map((order, index) => ({ index: index + 1, ...order }))`
      (user/index.js:153-156). */
  function Numbered(os: seq<Order>): seq<NumberedOrder> {
    Numbering(NumberOrder, os)
  }

  /** Output record `i` is stored order `i`, with index `i + 1`. */
  lemma NumberedIndexes(os: seq<Order>)
    ensures |Numbered(os)| == |os|
    ensures forall i :: 0 <= i < |os| ==> Numbered(os)[i].index == i + 1 && Numbered(os)[i].order == os[i]
  {
    forall i | 0 <= i < |os|
      ensures Numbered(os)[i] == NumberOrder(os[i], i + 1)
    {
      NumberingAt(NumberOrder, os, i);
    }
  }

  /** The scroll loop of user/index.js:81-150. `batches[t]` is what the
      row extraction returned at iteration `t` and `scrolls[t]` what that
      iteration's scroll call observed; the page answers as many
      iterations as the loop may run. The loop runs at least one and at
      most 20 iterations, stops after the first iteration whose scroll did
      not move the container, and leaves the map holding the batches of
      the iterations it ran, merged first-seen-wins in order. */
  method ScrollAndMerge(batches: seq<seq<Order>>, scrolls: seq<ScrollReading>) returns (st: Store, rounds: nat)
    requires |batches| >= MaxScrollAttempts && |scrolls| >= MaxScrollAttempts
    ensures 1 <= rounds <= MaxScrollAttempts
    ensures forall t :: 0 <= t < rounds - 1 ==> Scrolled(scrolls[t])
    ensures rounds < MaxScrollAttempts ==> !Scrolled(scrolls[rounds - 1])
    ensures st == MergeRounds(batches, rounds)
  {
    var ordersMap := new OrdersMap();
    var scrollAttempts := 0;
    while scrollAttempts < MaxScrollAttempts
      invariant 0 <= scrollAttempts <= MaxScrollAttempts
      invariant ordersMap.State() == MergeRounds(batches, scrollAttempts)
      invariant forall t :: 0 <= t < scrollAttempts ==> Scrolled(scrolls[t])
    {
      var t := scrollAttempts;
      scrollAttempts := scrollAttempts + 1;
      var newOrders := batches[t];
      MergeRoundsNext(batches, t);
      MergeRoundsValid(batches, t);
      var newCount := ordersMap.Merge(newOrders);
      if !Scrolled(scrolls[t]) {
        break;
      }
    }
    rounds := scrollAttempts;
    st := ordersMap.State();
  }

  /** scrapePendingOrders after login (user/index.js:71-156): it fails
      before extracting anything when the scroll container is missing;
      otherwise it returns the orders of the scroll loop numbered 1..n in
      first-insertion order, with pairwise different truthy order ids. */
  method HarvestPendingOrders(containerFound: bool, pages: seq<seq<Row>>, scrolls: seq<ScrollReading>)
    returns (result: Result<seq<NumberedOrder>, HarvestError>, rounds: nat)
    requires |pages| >= MaxScrollAttempts && |scrolls| >= MaxScrollAttempts
    ensures !containerFound ==> result == Failure(ContainerNotFound) && rounds == 0
    ensures containerFound ==> 1 <= rounds <= MaxScrollAttempts
    ensures containerFound ==> forall t :: 0 <= t < rounds - 1 ==> Scrolled(scrolls[t])
    ensures containerFound && rounds < MaxScrollAttempts ==> !Scrolled(scrolls[rounds - 1])
    ensures containerFound ==> Valid(MergeRounds(ExtractAll(PendingPanel, pages), rounds))
    ensures containerFound ==> result == Success(Numbered(Values(MergeRounds(ExtractAll(PendingPanel, pages), rounds))))
    ensures result.Success? ==>
      forall i, j :: 0 <= i < j < |result.value| ==> result.value[i].order.orderId != result.value[j].order.orderId
    ensures result.Success? ==> forall i :: 0 <= i < |result.value| ==> Truthy(result.value[i].order.orderId)
  {
    if !containerFound {
      return Failure(ContainerNotFound), 0;
    }
    var st;
    st, rounds := ScrollAndMerge(ExtractAll(PendingPanel, pages), scrolls);
    MergeRoundsValid(ExtractAll(PendingPanel, pages), rounds);
    ValuesHaveUniqueIds(st);
    NumberedIndexes(Values(st));
    result := Success(Numbered(Values(st)));
  }
}
