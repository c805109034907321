/** The `ordersMap` of the harvesting scripts: a JavaScript Map from order
    id to order, which keeps its keys in first-insertion order, and the
    first-seen-wins merge of one batch of extracted rows into it
    (user/index.js:121-127, user/captureProduct.js:62-68). */
module OrderStore {
  import opened JsText
  import opened OrderRows

  /** An insertion-ordered map: the keys in insertion order and the entries. */
  datatype Store = Store(keys: seq<string>, entries: map<string, Order>)

  const Empty := Store([], map[])

  ghost predicate Distinct(ks: seq<string>) {
    forall i, j :: 0 <= i < j < |ks| ==> ks[i] != ks[j]
  }

  /** The map's invariant: the key list is the domain without repeats, and
      every key is the non-empty order id of the order stored under it. */
  ghost predicate Valid(st: Store) {
    && Distinct(st.keys)
    && (forall k :: k in st.keys <==> k in st.entries)
    && (forall k :: k in st.entries ==> k != "" && st.entries[k].orderId == Str(k))
  }

  /** Map.prototype.size. */
  function Size(st: Store): nat {
    |st.entries|
  }

  /** The ids a batch appends to a map whose keys are `seen`, read from
      the front: each truthy id not yet seen, at its first occurrence. */
  ghost function FirstOccurrences(batch: seq<Order>, seen: set<string>): seq<string>
    decreases |batch|
  {
    if batch == [] then []
    else if Truthy(batch[0].orderId) && batch[0].orderId.s !in seen then
      [batch[0].orderId.s] + FirstOccurrences(batch[1..], seen + {batch[0].orderId.s})
    else FirstOccurrences(batch[1..], seen)
  }

  /** One turn of the merge loop: an order is stored when its id is truthy
      and not yet a key; otherwise the map is left as it is. */
  function MergeOne(st: Store, o: Order): Store {
    if Truthy(o.orderId) && o.orderId.s !in st.entries then
      Store(st.keys + [o.orderId.s], st.entries[o.orderId.s := o])
    else st
  }

  /** The whole merge loop over a batch, in batch order. */
  function MergeBatch(st: Store, batch: seq<Order>): Store
    decreases |batch|
  {
    if batch == [] then st
    else MergeOne(MergeBatch(st, batch[..|batch| - 1]), batch[|batch| - 1])
  }

  /** The ids a batch offers for merging: its truthy order ids. */
  ghost function BatchKeys(batch: seq<Order>): set<string> {
    set i | 0 <= i < |batch| && Truthy(batch[i].orderId) :: batch[i].orderId.s
  }

  /** The map's values in insertion order (`Array.from(ordersMap.values())`). */
  function Values(st: Store): (vs: seq<Order>)
    requires Valid(st)
    ensures |vs| == |st.keys|
    ensures forall i :: 0 <= i < |vs| ==> vs[i] == st.entries[st.keys[i]]
  {
    seq(|st.keys|, i requires 0 <= i < |st.keys| => st.entries[st.keys[i]])
  }

  lemma EmptyValid()
    ensures Valid(Empty) && Size(Empty) == 0
  {
  }

  /** A map with distinct keys lists exactly as many keys as it has entries. */
  lemma {:induction false} SizeIsKeyCount(st: Store)
    requires Valid(st)
    ensures Size(st) == |st.keys|
  {
    KeySetSize(st.keys);
    assert st.entries.Keys == set k | k in st.keys;
  }

  lemma {:induction false} KeySetSize(ks: seq<string>)
    requires Distinct(ks)
    ensures |set k | k in ks| == |ks|
  {
    if ks != [] {
      var init := ks[..|ks| - 1];
      var last := ks[|ks| - 1];
      KeySetSize(init);
      assert (set k | k in ks) == (set k | k in init) + {last} by {
        forall k ensures k in ks <==> k in init || k == last {
          if k in ks {
            var i :| 0 <= i < |ks| && ks[i] == k;
            if i < |ks| - 1 { assert init[i] == k; }
          }
        }
      }
      assert last !in init by {
        forall i | 0 <= i < |init| ensures init[i] != last {
          assert ks[i] == init[i];
        }
      }
    }
  }

  lemma MergeOneValid(st: Store, o: Order)
    requires Valid(st)
    ensures Valid(MergeOne(st, o))
  {
    if Truthy(o.orderId) && o.orderId.s !in st.entries {
      var r := MergeOne(st, o);
      forall i, j | 0 <= i < j < |r.keys| ensures r.keys[i] != r.keys[j] {
        if j == |st.keys| {
          assert r.keys[i] == st.keys[i];
        } else {
          assert r.keys[i] == st.keys[i] && r.keys[j] == st.keys[j];
        }
      }
    }
  }

  /** Merging keeps the map's invariant. */
  lemma {:induction false} MergeBatchValid(st: Store, batch: seq<Order>)
    requires Valid(st)
    ensures Valid(MergeBatch(st, batch))
    decreases |batch|
  {
    if batch != [] {
      MergeBatchValid(st, batch[..|batch| - 1]);
      MergeOneValid(MergeBatch(st, batch[..|batch| - 1]), batch[|batch| - 1]);
    }
  }

  /** Merging only appends: the old keys stay first, in their order, and
      an order already stored is never overwritten (first seen wins). */
  lemma {:induction false} MergeBatchExtends(st: Store, batch: seq<Order>)
    ensures |st.keys| <= |MergeBatch(st, batch).keys|
    ensures MergeBatch(st, batch).keys[..|st.keys|] == st.keys
    ensures forall k :: k in st.entries ==>
      k in MergeBatch(st, batch).entries && MergeBatch(st, batch).entries[k] == st.entries[k]
    decreases |batch|
  {
    if batch != [] {
      var mid := MergeBatch(st, batch[..|batch| - 1]);
      MergeBatchExtends(st, batch[..|batch| - 1]);
      var r := MergeOne(mid, batch[|batch| - 1]);
      assert r.keys[..|st.keys|] == mid.keys[..|st.keys|];
    }
  }

  /** The ids offered by a batch are those of all but its last order,
      and the last order's id when that is truthy. */
  lemma BatchKeysSnoc(batch: seq<Order>)
    requires batch != []
    ensures BatchKeys(batch) == BatchKeys(batch[..|batch| - 1]) + LastKey(batch[|batch| - 1])
  {
    var init := batch[..|batch| - 1];
    var last := batch[|batch| - 1];
    forall k ensures k in BatchKeys(batch) <==> k in BatchKeys(init) || k in LastKey(last) {
      if k in BatchKeys(batch) {
        var i :| 0 <= i < |batch| && Truthy(batch[i].orderId) && batch[i].orderId.s == k;
        if i < |batch| - 1 { assert init[i] == batch[i]; }
      }
      if k in BatchKeys(init) {
        var i :| 0 <= i < |init| && Truthy(init[i].orderId) && init[i].orderId.s == k;
        assert batch[i] == init[i];
      }
    }
  }

  /** The id one order offers: its order id when that is truthy. */
  function LastKey(o: Order): set<string> {
    if Truthy(o.orderId) then {o.orderId.s} else {}
  }

  /** After a merge the keys are the old keys together with the ids the
      batch offered, and nothing else. */
  lemma {:induction false} MergeBatchDomain(st: Store, batch: seq<Order>)
    ensures MergeBatch(st, batch).entries.Keys == st.entries.Keys + BatchKeys(batch)
    decreases |batch|
  {
    if batch != [] {
      MergeBatchDomain(st, batch[..|batch| - 1]);
      BatchKeysSnoc(batch);
    }
  }

  /** A newly stored id holds the first order of the batch that carried
      it; later orders with the same id are ignored. */
  lemma {:induction false} MergeBatchFirstSeen(st: Store, batch: seq<Order>, i: nat)
    requires i < |batch| && Truthy(batch[i].orderId)
    requires batch[i].orderId.s !in st.entries
    requires forall j :: 0 <= j < i ==> batch[j].orderId != batch[i].orderId
    ensures batch[i].orderId.s in MergeBatch(st, batch).entries
    ensures MergeBatch(st, batch).entries[batch[i].orderId.s] == batch[i]
    decreases |batch|
  {
    var init := batch[..|batch| - 1];
    var k := batch[i].orderId.s;
    if i < |batch| - 1 {
      assert init[i] == batch[i];
      MergeBatchFirstSeen(st, init, i);
    } else {
      MergeBatchDomain(st, init);
    }
  }

  /** Merging two batches one after the other is merging their
      concatenation. */
  lemma {:induction false} MergeBatchAppend(st: Store, a: seq<Order>, b: seq<Order>)
    ensures MergeBatch(st, a + b) == MergeBatch(MergeBatch(st, a), b)
    decreases |b|
  {
    if b == [] {
      assert a + b == a;
    } else {
      var ab := a + b;
      assert ab[..|ab| - 1] == a + b[..|b| - 1];
      assert ab[|ab| - 1] == b[|b| - 1];
      MergeBatchAppend(st, a, b[..|b| - 1]);
    }
  }

  /** The merge appends to the old keys exactly the batch's fresh truthy
      ids, in the order of their first occurrence in the batch. */
  lemma {:induction false} MergeBatchAppendsInOrder(st: Store, batch: seq<Order>)
    ensures MergeBatch(st, batch).keys == st.keys + FirstOccurrences(batch, st.entries.Keys)
    decreases |batch|
  {
    if batch == [] {
      assert st.keys + [] == st.keys;
    } else {
      var o := batch[0];
      var rest := batch[1..];
      assert batch == [o] + rest;
      assert [o][..0] == [];
      MergeBatchAppend(st, [o], rest);
      var mid := MergeOne(st, o);
      MergeBatchAppendsInOrder(mid, rest);
      if Truthy(o.orderId) && o.orderId.s !in st.entries {
        assert mid.entries.Keys == st.entries.Keys + {o.orderId.s};
        assert st.keys + [o.orderId.s] + FirstOccurrences(rest, mid.entries.Keys)
          == st.keys + ([o.orderId.s] + FirstOccurrences(rest, mid.entries.Keys));
      }
    }
  }

  /** The count the loop keeps: the size grows by the number of offered
      ids that were not stored before. */
  lemma NewCountIsFreshKeys(st: Store, batch: seq<Order>)
    ensures Size(MergeBatch(st, batch)) == Size(st) + |BatchKeys(batch) - st.entries.Keys|
  {
    MergeBatchDomain(st, batch);
    UnionWithFresh(st.entries.Keys, BatchKeys(batch));
  }

  lemma UnionWithFresh(a: set<string>, b: set<string>)
    ensures |a + b| == |a| + |b - a|
  {
    assert a + b == a + (b - a);
    assert a * (b - a) == {};
  }

  /** The size is unchanged by a merge exactly when every offered id was
      already stored. */
  lemma SizeUnchangedIff(st: Store, batch: seq<Order>)
    ensures Size(MergeBatch(st, batch)) == Size(st) <==> BatchKeys(batch) <= st.entries.Keys
  {
    NewCountIsFreshKeys(st, batch);
    var added := BatchKeys(batch) - st.entries.Keys;
    if BatchKeys(batch) <= st.entries.Keys {
      assert added == {};
    } else {
      var k :| k in BatchKeys(batch) && k !in st.entries.Keys;
      assert k in added;
    }
  }

  /** The stored orders, read in insertion order, have pairwise different
      truthy order ids. */
  lemma ValuesHaveUniqueIds(st: Store)
    requires Valid(st)
    ensures forall i, j :: 0 <= i < j < |Values(st)| ==> Values(st)[i].orderId != Values(st)[j].orderId
    ensures forall i :: 0 <= i < |Values(st)| ==> Truthy(Values(st)[i].orderId)
  {
    var vs := Values(st);
    forall i, j | 0 <= i < j < |vs| ensures vs[i].orderId != vs[j].orderId {
      assert st.keys[i] in st.entries && st.keys[j] in st.entries;
    }
    forall i | 0 <= i < |vs| ensures Truthy(vs[i].orderId) {
      assert st.keys[i] in st.entries;
    }
  }

  /** Iteration `t` merges its batch into the map left by the iterations before. */
  lemma MergeRoundsNext(batches: seq<seq<Order>>, t: nat)
    requires t < |batches|
    ensures MergeRounds(batches, t + 1) == MergeBatch(MergeRounds(batches, t), batches[t])
  {
  }

  /** `later` keeps the keys of `earlier` first and in their order, keeps
      every order of `earlier` unchanged, and is at least as large. */
  ghost predicate Extends(earlier: Store, later: Store) {
    && |earlier.keys| <= |later.keys|
    && later.keys[..|earlier.keys|] == earlier.keys
    && Size(earlier) <= Size(later)
    && forall k :: k in earlier.entries ==> k in later.entries && later.entries[k] == earlier.entries[k]
  }

  /** Merging a batch into a valid map extends it. */
  lemma MergeBatchIsExtension(st: Store, batch: seq<Order>)
    requires Valid(st)
    ensures Extends(st, MergeBatch(st, batch))
  {
    MergeBatchExtends(st, batch);
    MergeBatchValid(st, batch);
    SizeIsKeyCount(st);
    SizeIsKeyCount(MergeBatch(st, batch));
  }

  /** The accumulated map after `n` iterations of a harvesting loop that
      extracted the batch `batches[t]` at iteration `t`; it is always valid. */
  function MergeRounds(batches: seq<seq<Order>>, n: nat): Store
    requires n <= |batches|
  {
    if n == 0 then Empty else MergeBatch(MergeRounds(batches, n - 1), batches[n - 1])
  }

  lemma {:induction false} MergeRoundsValid(batches: seq<seq<Order>>, n: nat)
    requires n <= |batches|
    ensures Valid(MergeRounds(batches, n))
  {
    if n > 0 {
      MergeRoundsValid(batches, n - 1);
      MergeBatchValid(MergeRounds(batches, n - 1), batches[n - 1]);
    }
  }

  /** An iteration leaves the size unchanged exactly when every id its
      batch offered was already stored. */
  lemma RoundAddsNothingIff(batches: seq<seq<Order>>, j: nat)
    requires j < |batches|
    ensures Size(MergeRounds(batches, j + 1)) == Size(MergeRounds(batches, j))
        <==> BatchKeys(batches[j]) <= MergeRounds(batches, j).entries.Keys
  {
    MergeRoundsNext(batches, j);
    SizeUnchangedIff(MergeRounds(batches, j), batches[j]);
  }

  lemma ExtendsTransitive(a: Store, b: Store, c: Store)
    requires Extends(a, b) && Extends(b, c)
    ensures Extends(a, c)
  {
    assert c.keys[..|a.keys|] == c.keys[..|b.keys|][..|a.keys|];
  }

  /** One harvesting iteration extends the map. */
  lemma MergeRoundStep(batches: seq<seq<Order>>, n: nat)
    requires 0 < n <= |batches|
    ensures Extends(MergeRounds(batches, n - 1), MergeRounds(batches, n))
  {
    MergeRoundsValid(batches, n - 1);
    MergeBatchIsExtension(MergeRounds(batches, n - 1), batches[n - 1]);
  }

  /** In a chain of maps each extending the one before, every map
      extends every earlier one. */
  lemma {:induction false} ExtendsChain(ss: seq<Store>, j: nat, k: nat)
    requires j <= k < |ss|
    requires forall t :: 0 < t < |ss| ==> Extends(ss[t - 1], ss[t])
    ensures Extends(ss[j], ss[k])
    decreases k - j
  {
    if j < k {
      ExtendsChain(ss, j, k - 1);
      ExtendsTransitive(ss[j], ss[k - 1], ss[k]);
    }
  }

  /** The maps of all iterations, in order. */
  function RoundMaps(batches: seq<seq<Order>>): (ss: seq<Store>)
    ensures |ss| == |batches| + 1
    ensures forall t :: 0 <= t <= |batches| ==> ss[t] == MergeRounds(batches, t)
  {
    seq(|batches| + 1, t requires 0 <= t <= |batches| => MergeRounds(batches, t))
  }

  lemma RoundMapsChain(batches: seq<seq<Order>>)
    ensures forall t :: 0 < t < |RoundMaps(batches)| ==> Extends(RoundMaps(batches)[t - 1], RoundMaps(batches)[t])
  {
    var ss := RoundMaps(batches);
    forall t | 0 < t < |ss|
      ensures Extends(ss[t - 1], ss[t])
    {
      MergeRoundStep(batches, t);
    }
  }

  /** Accumulation is monotone: a later map keeps every order of an
      earlier one, unchanged, so its size never decreases. */
  lemma MergeRoundsMonotone(batches: seq<seq<Order>>, j: nat, k: nat)
    requires j <= k <= |batches|
    ensures Extends(MergeRounds(batches, j), MergeRounds(batches, k))
  {
    RoundMapsChain(batches);
    ExtendsChain(RoundMaps(batches), j, k);
  }

  /** The mutable map of the scripts. */
  class OrdersMap {
    var keys: seq<string>
    var entries: map<string, Order>

    function State(): Store
      reads this
    {
      Store(keys, entries)
    }

    /** `new Map()`. */
    constructor ()
      ensures State() == Empty
    {
      keys := [];
      entries := map[];
    }

    /** Map.prototype.size. */
    function Count(): (n: nat)
      reads this
      ensures n == Size(State())
    {
      |entries|
    }

    /** Map.prototype.has. */
    function Has(k: string): (b: bool)
      reads this
      ensures b <==> k in State().entries
    {
      k in entries
    }

    /** Map.prototype.set: a new key goes to the end, an existing key keeps
        its place and gets the new value. */
    method Set(k: string, o: Order)
      modifies this
      ensures keys == if k in old(entries) then old(keys) else old(keys) + [k]
      ensures entries == old(entries)[k := o]
    {
      if k !in entries {
        keys := keys + [k];
      }
      entries := entries[k := o];
    }

    /** The merge loop, returning the loop's `newCount`. */
    method Merge(batch: seq<Order>) returns (newCount: nat)
      requires Valid(State())
      modifies this
      ensures Valid(State())
      ensures State() == MergeBatch(old(State()), batch)
      ensures |keys| == |old(keys)| + newCount
      ensures Size(State()) == Size(old(State())) + newCount
      ensures newCount == |BatchKeys(batch) - old(entries).Keys|
    {
      newCount := 0;
      for i := 0 to |batch|
        invariant State() == MergeBatch(old(State()), batch[..i])
        invariant |keys| == |old(keys)| + newCount
      {
        assert batch[..i + 1][..i] == batch[..i];
        var order := batch[i];
        if Truthy(order.orderId) && !Has(order.orderId.s) {
          Set(order.orderId.s, order);
          newCount := newCount + 1;
        }
      }
      assert batch[..|batch|] == batch;
      MergeBatchValid(old(State()), batch);
      SizeIsKeyCount(old(State()));
      SizeIsKeyCount(State());
      NewCountIsFreshKeys(old(State()), batch);
    }
  }
}
