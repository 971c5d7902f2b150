/** core/tx_list.go, txSortedMap: a nonce -> transaction map with a heap of nonces
    and a cached sorted listing beside it. */
module TxSortedMaps {
  import opened Transactions
  import BinaryHeap

  predicate TxNonceLess(a: Tx, b: Tx) { a.nonce < b.nonce }

  lemma NonceOrder()
    ensures BinaryHeap.WeakOrder(BinaryHeap.NumberLess) && BinaryHeap.WeakOrder(TxNonceLess)
  {
  }

  /** The nonces of `m`, each once. */
  ghost predicate Indexes(index: seq<nat>, m: Items) {
    BinaryHeap.IsHeap(index, BinaryHeap.NumberLess) && multiset(index) == multiset(m.Keys)
  }

  /** The root of the index is the least nonce. */
  lemma IndexRoot(index: seq<nat>, m: Items)
    requires Indexes(index, m)
    ensures |index| == |m|
    ensures forall n :: n in index <==> n in m
    ensures |index| > 0 ==> index[0] in m && forall n :: n in m ==> index[0] <= n
  {
    assert |multiset(index)| == |multiset(m.Keys)|;
    assert forall n :: n in index <==> n in multiset(index);
    if |index| > 0 {
      assert index[0] in multiset(index);
      forall n | n in m ensures index[0] <= n {
        assert n in multiset(index);
        var k :| 0 <= k < |index| && index[k] == n;
        NonceOrder();
        BinaryHeap.RootIsLeast(index, BinaryHeap.NumberLess, k);
      }
    }
  }

  lemma KeysMinus(m: Items, n: nat)
    requires n in m
    ensures multiset((m - {n}).Keys) == multiset(m.Keys) - multiset{n}
    ensures |m - {n}| == |m| - 1
  {
    assert (m - {n}).Keys == m.Keys - {n};
  }

  // The heap calls, stated over the collection whose nonces the heap holds.

  method PushNonce(index: seq<nat>, ghost m: Items, tx: Tx) returns (r: seq<nat>)
    requires Indexes(index, m) && tx.nonce !in m
    ensures Indexes(r, m[tx.nonce := tx])
  {
    NonceOrder();
    r := BinaryHeap.Push(index, BinaryHeap.NumberLess, tx.nonce);
    assert m[tx.nonce := tx].Keys == m.Keys + {tx.nonce};
  }

  method PopNonce(index: seq<nat>, ghost m: Items) returns (r: seq<nat>)
    requires index != [] && Indexes(index, m)
    ensures Indexes(r, m - {index[0]}) && |r| == |index| - 1
  {
    NonceOrder();
    IndexRoot(index, m);
    KeysMinus(m, index[0]);
    var x;
    x, r := BinaryHeap.Pop(index, BinaryHeap.NumberLess);
  }

  method RemoveNonce(index: seq<nat>, ghost m: Items, i: nat) returns (r: seq<nat>)
    requires Indexes(index, m) && i < |index|
    ensures Indexes(r, m - {index[i]})
  {
    NonceOrder();
    IndexRoot(index, m);
    KeysMinus(m, index[i]);
    var x;
    x, r := BinaryHeap.RemoveAt(index, BinaryHeap.NumberLess, i);
  }

  method Position(index: seq<nat>, nonce: nat) returns (i: nat)
    requires nonce in index
    ensures i < |index| && index[i] == nonce
  {
    i := 0;
    while index[i] != nonce
      invariant i < |index| && nonce in index[i..]
      decreases |index| - i
    {
      i := i + 1;
    }
  }

  method InitIndex(keys: seq<nat>, ghost m: Items) returns (r: seq<nat>)
    requires multiset(keys) == multiset(m.Keys)
    ensures Indexes(r, m)
  {
    NonceOrder();
    r := BinaryHeap.Init(keys, BinaryHeap.NumberLess);
  }

  method SortIndex(index: seq<nat>, ghost m: Items) returns (r: seq<nat>)
    requires Indexes(index, m)
    ensures SortedKeys(r, m)
  {
    NonceOrder();
    r := BinaryHeap.Sort(index, BinaryHeap.NumberLess);
    SortedIndex(r, m);
  }

  method SortByNonce(txs: seq<Tx>, ghost m: Items) returns (r: seq<Tx>)
    requires Lists(txs, m)
    ensures SortedListing(r, m)
  {
    NonceOrder();
    r := BinaryHeap.Sort(txs, TxNonceLess);
    SortedStaysListing(txs, r, m);
  }

  /** Listing one more transaction, above all listed so far. */
  lemma ListingPlus(s: seq<Tx>, m: Items, tx: Tx)
    requires Lists(s, m) && tx.nonce !in m
    ensures Lists(s + [tx], m[tx.nonce := tx])
    ensures Increasing(s) && (forall n :: n in m ==> n < tx.nonce) ==> Increasing(s + [tx])
  {
    assert m[tx.nonce := tx].Keys == m.Keys + {tx.nonce};
  }

  /** The nonces below `bound` have been popped off, in order. */
  ghost predicate Popped(m: Items, bound: nat, items: Items, removed: seq<Tx>) {
    Keyed(m) && items == AtLeast(m, bound) && SortedListing(removed, Below(m, bound))
  }

  lemma PopStart(m: Items, bound: nat)
    requires Keyed(m) && forall n :: n in m ==> bound <= n
    ensures Popped(m, bound, m, [])
  {
    assert Below(m, bound) == map[];
    assert m == AtLeast(m, bound);
  }

  /** Popping the root moves the bound just past it. */
  lemma PopStep(m: Items, bound: nat, items: Items, heap: seq<nat>, removed: seq<Tx>)
    requires Popped(m, bound, items, removed) && Indexes(heap, items) && heap != []
    ensures heap[0] in items && heap[0] >= bound && heap[0] in m
    ensures Popped(m, heap[0] + 1, items - {heap[0]}, removed + [items[heap[0]]])
  {
    hide Popped;
    IndexRoot(heap, items);
    PopAt(m, bound, items, heap[0], removed);
  }

  lemma PopAt(m: Items, bound: nat, items: Items, nonce: nat, removed: seq<Tx>)
    requires Popped(m, bound, items, removed)
    requires nonce in items && forall n :: n in items ==> nonce <= n
    ensures nonce >= bound && nonce in m
    ensures Popped(m, nonce + 1, items - {nonce}, removed + [items[nonce]])
  {
    BoundSplit(m, bound, nonce);
    PopListing(m, bound, nonce, removed);
  }

  lemma PopListing(m: Items, bound: nat, nonce: nat, removed: seq<Tx>)
    requires SortedListing(removed, Below(m, bound)) && Keyed(m) && nonce in m && bound <= nonce
    requires Below(m, nonce + 1) == Below(m, bound)[nonce := m[nonce]]
    ensures SortedListing(removed + [m[nonce]], Below(m, nonce + 1))
  {
    hide Lists;
    ListingPlus(removed, Below(m, bound), m[nonce]);
  }

  lemma BoundSplit(m: Items, bound: nat, nonce: nat)
    requires nonce in m && nonce >= bound && forall n :: n in AtLeast(m, bound) ==> nonce <= n
    ensures AtLeast(m, nonce + 1) == AtLeast(m, bound) - {nonce}
    ensures Below(m, nonce + 1) == Below(m, bound)[nonce := m[nonce]]
  {
    forall n | n in m ensures n < bound || nonce <= n {
      if n >= bound { assert n in AtLeast(m, bound); }
    }
  }

  lemma PopDone(m: Items, bound: nat, items: Items, heap: seq<nat>, removed: seq<Tx>, threshold: nat)
    requires Popped(m, bound, items, removed) && Indexes(heap, items) && bound <= threshold
    requires heap == [] || heap[0] >= threshold
    ensures Popped(m, threshold, items, removed)
  {
    IndexRoot(heap, items);
    forall n | n in m ensures n < bound || threshold <= n {
      if n >= bound { assert n in items; }
    }
    assert AtLeast(m, bound) == AtLeast(m, threshold);
    assert Below(m, bound) == Below(m, threshold);
  }

  /** Pops nonces below the threshold off the heap and out of the map. */
  method PopBelow(m: Items, index: seq<nat>, threshold: nat) returns (items: Items, heap: seq<nat>, removed: seq<Tx>)
    requires Keyed(m) && Indexes(index, m)
    ensures Popped(m, threshold, items, removed) && Indexes(heap, items)
  {
    hide Popped;
    items, heap, removed := m, index, [];
    ghost var bound: nat := 0;
    PopStart(m, 0);
    while |heap| > 0 && heap[0] < threshold
      invariant bound <= threshold && Popped(m, bound, items, removed)
      invariant Indexes(heap, items)
      decreases |heap|
    {
      var nonce := heap[0];
      PopStep(m, bound, items, heap, removed);
      removed := removed + [items[nonce]];
      heap := PopNonce(heap, items);
      items := items - {nonce};
      bound := nonce + 1;
    }
    PopDone(m, bound, items, heap, removed, threshold);
  }

  /** Pops the run of consecutive nonces that starts at the root. */
  method PopRun(m: Items, index: seq<nat>) returns (items: Items, heap: seq<nat>, ready: seq<Tx>)
    requires index != [] && Keyed(m) && Indexes(index, m)
    ensures SortedListing(ready, ReadyItems(m, index[0]))
    ensures items == m - ReadyItems(m, index[0]).Keys && Indexes(heap, items)
  {
    hide Popped, SortedListing;
    items, heap, ready := m, index, [];
    var next := index[0];
    RunStart(m, index);
    while |heap| > 0 && heap[0] == next
      invariant index[0] <= next && Popped(m, next, items, ready)
      invariant Indexes(heap, items)
      invariant forall n :: index[0] <= n < next ==> n in m
      invariant next == index[0] ==> heap == index
      decreases |heap|
    {
      PopStep(m, next, items, heap, ready);
      ready := ready + [items[next]];
      heap := PopNonce(heap, items);
      items := items - {next};
      next := next + 1;
    }
    RunDone(m, index, next, items, heap, ready);
  }

  /** Whether anything is ready depends on the root alone. */
  lemma ReadyFrom(m: Items, index: seq<nat>, start: nat)
    requires Indexes(index, m)
    ensures index == [] || index[0] > start ==> ReadyItems(m, start) == map[] && SortedListing([], map[])
    ensures index != [] && index[0] <= start ==> ReadyItems(m, start) == ReadyItems(m, index[0])
  {
    IndexRoot(index, m);
  }

  lemma RunStart(m: Items, index: seq<nat>)
    requires index != [] && Keyed(m) && Indexes(index, m)
    ensures Popped(m, index[0], m, [])
  {
    IndexRoot(index, m);
    PopStart(m, index[0]);
  }

  lemma RunDone(m: Items, index: seq<nat>, next: nat, items: Items, heap: seq<nat>, ready: seq<Tx>)
    requires index != [] && Indexes(index, m) && index[0] < next
    requires Popped(m, next, items, ready) && Indexes(heap, items) && (heap == [] || heap[0] != next)
    requires forall n :: index[0] <= n < next ==> n in m
    ensures SortedListing(ready, ReadyItems(m, index[0]))
    ensures items == m - ReadyItems(m, index[0]).Keys
  {
    IndexRoot(heap, items);
    IndexRoot(index, m);
    assert next in m ==> next in items;
    RunIsReady(m, index[0], next);
  }

  lemma RunIsReady(m: Items, lo: nat, next: nat)
    requires lo in m && lo < next && next !in m
    requires (forall n :: n in m ==> lo <= n) && forall n :: lo <= n < next ==> n in m
    ensures ReadyItems(m, lo) == Below(m, next)
    ensures m - ReadyItems(m, lo).Keys == AtLeast(m, next)
  {
    forall n | n in m ensures NoGapBelow(m, n) <==> n < next {
      if n >= next { assert lo <= next <= n; }
    }
  }

  ghost predicate Decreasing(s: seq<Tx>) {
    forall i, j :: 0 <= i < j < |s| ==> s[j].nonce < s[i].nonce
  }

  /** The nonces of a map in some order. */
  method Nonces(m: Items) returns (keys: seq<nat>)
    ensures multiset(keys) == multiset(m.Keys)
  {
    keys := [];
    var todo := m.Keys;
    while todo != {}
      invariant multiset(keys) + multiset(todo) == multiset(m.Keys)
      decreases |todo|
    {
      var nonce :| nonce in todo;
      keys := keys + [nonce];
      assert multiset(todo) == multiset(todo - {nonce}) + multiset{nonce};
      todo := todo - {nonce};
    }
  }

  /** `sorted` lists the nonces of `m` in increasing order. */
  ghost predicate SortedKeys(sorted: seq<nat>, m: Items) {
    && |sorted| == |m|
    && (forall i, j :: 0 <= i < j < |sorted| ==> sorted[i] < sorted[j])
    && (forall n :: n in m <==> n in sorted)
  }

  /** The nonces from `bound` on have been dropped, highest first. */
  ghost predicate Dropped(m: Items, bound: nat, items: Items, drops: seq<Tx>) {
    Keyed(m) && items == Below(m, bound) && Lists(drops, AtLeast(m, bound)) && Decreasing(drops)
  }

  /** Moving the bound down to the greatest nonce below it. */
  lemma DropStep(m: Items, bound: nat, items: Items, drops: seq<Tx>, nonce: nat)
    requires Dropped(m, bound, items, drops)
    requires nonce in m && nonce < bound && forall n :: n in m && n < bound ==> n <= nonce
    ensures nonce in items && Dropped(m, nonce, items - {nonce}, drops + [items[nonce]])
  {
    assert AtLeast(m, nonce) == AtLeast(m, bound)[nonce := m[nonce]];
    assert Below(m, nonce) == Below(m, bound) - {nonce};
    ListingPlus(drops, AtLeast(m, bound), m[nonce]);
    DecreasingPlus(drops, m, bound, m[nonce]);
  }

  lemma DecreasingPlus(s: seq<Tx>, m: Items, bound: nat, tx: Tx)
    requires Lists(s, AtLeast(m, bound)) && Decreasing(s) && tx.nonce < bound
    ensures Decreasing(s + [tx])
  {
    forall i | 0 <= i < |s| ensures tx.nonce < s[i].nonce { assert s[i].nonce in AtLeast(m, bound); }
  }

  lemma DropStart(m: Items, sorted: seq<nat>)
    requires Keyed(m) && SortedKeys(sorted, m) && sorted != []
    ensures Dropped(m, sorted[|sorted| - 1] + 1, m, [])
  {
    var bound := sorted[|sorted| - 1] + 1;
    forall n | n in m ensures n < bound {}
    assert m == Below(m, bound);
    assert AtLeast(m, bound) == map[];
  }

  /** Deletes the nonces from position `threshold` of the sorted index on, last first. */
  method DropTail(m: Items, sorted: seq<nat>, threshold: nat) returns (items: Items, drops: seq<Tx>)
    requires Keyed(m) && threshold < |m| && SortedKeys(sorted, m)
    ensures Dropped(m, sorted[threshold], items, drops)
  {
    hide Dropped;
    items, drops := m, [];
    ghost var bound: nat := sorted[|sorted| - 1] + 1;
    DropStart(m, sorted);
    var size := |sorted|;
    while size > threshold
      invariant threshold <= size <= |sorted|
      invariant bound == if size == |sorted| then sorted[size - 1] + 1 else sorted[size]
      invariant Dropped(m, bound, items, drops)
    {
      var nonce := sorted[size - 1];
      NextBelow(m, sorted, size, bound);
      DropStep(m, bound, items, drops, nonce);
      drops := drops + [items[nonce]];
      items := items - {nonce};
      bound, size := nonce, size - 1;
    }
  }

  lemma NothingDropped(m: Items)
    ensures Lists([], m - m.Keys) && Decreasing([])
  {
    assert m - m.Keys == map[];
  }

  /** Sorts the index, deletes the tail from the map, and rebuilds the heap on the rest. */
  method CapItems(m: Items, index: seq<nat>, threshold: nat)
    returns (items: Items, heap: seq<nat>, drops: seq<Tx>, ghost bound: nat)
    requires Keyed(m) && Indexes(index, m) && threshold < |m|
    ensures items == Below(m, bound) && LowestOf(items, m, threshold) && Indexes(heap, items)
    ensures AtLeast(m, bound) == m - items.Keys
    ensures Lists(drops, AtLeast(m, bound)) && Decreasing(drops)
  {
    hide Lists, Decreasing, LowestOf;
    var sorted := SortIndex(index, m);
    items, drops := DropTail(m, sorted, threshold);
    CapKeeps(m, sorted, threshold);
    bound := sorted[threshold];
    heap := InitIndex(sorted[..threshold], items);
  }

  lemma NextBelow(m: Items, sorted: seq<nat>, size: nat, bound: nat)
    requires SortedKeys(sorted, m) && 0 < size <= |sorted|
    requires bound == if size == |sorted| then sorted[size - 1] + 1 else sorted[size]
    ensures sorted[size - 1] in m && sorted[size - 1] < bound
    ensures forall n :: n in m && n < bound ==> n <= sorted[size - 1]
  {
    forall n | n in m && n < bound ensures n <= sorted[size - 1] {
      var i :| 0 <= i < |sorted| && sorted[i] == n;
    }
  }

  /** The values outside `todo` have been listed. */
  ghost predicate Listed(m: Items, todo: set<nat>, txs: seq<Tx>) {
    todo <= m.Keys && Lists(txs, m - todo)
  }

  lemma ListStep(m: Items, todo: set<nat>, txs: seq<Tx>, nonce: nat)
    requires Listed(m, todo, txs) && nonce in todo && Keyed(m)
    ensures Listed(m, todo - {nonce}, txs + [m[nonce]])
  {
    ListingPlus(txs, m - todo, m[nonce]);
    assert m - (todo - {nonce}) == (m - todo)[nonce := m[nonce]];
  }

  lemma ListStart(m: Items)
    ensures Listed(m, m.Keys, [])
  {
    assert m - m.Keys == map[];
  }

  /** The values of a map in some order. */
  method Values(m: Items) returns (txs: seq<Tx>)
    requires Keyed(m)
    ensures Lists(txs, m)
  {
    hide Lists;
    txs := [];
    var todo := m.Keys;
    ListStart(m);
    while todo != {}
      invariant Listed(m, todo, txs)
      decreases |todo|
    {
      var nonce :| nonce in todo;
      ListStep(m, todo, txs, nonce);
      txs := txs + [m[nonce]];
      todo := todo - {nonce};
    }
    assert m - todo == m;
  }

  /** The values of a map in nonce order. */
  method SortedValues(m: Items) returns (txs: seq<Tx>)
    requires Keyed(m)
    ensures SortedListing(txs, m)
  {
    hide Lists, SortedListing;
    var values := Values(m);
    txs := SortByNonce(values, m);
  }

  /** The `k` lowest nonces of a map. */
  method Lowest(m: Items, k: nat) returns (kept: Items)
    requires Keyed(m)
    ensures LowestOf(kept, m, k)
  {
    hide Lists, Decreasing;
    if |m| <= k {
      return m;
    }
    var keys := Nonces(m);
    var index := InitIndex(keys, m);
    var heap, drops;
    ghost var bound;
    kept, heap, drops, bound := CapItems(m, index, k);
  }

  class TxSortedMap {
    var items: Items
    var index: seq<nat>
    var cache: Option<seq<Tx>>

    ghost predicate Valid()
      reads this
    {
      && Keyed(items)
      && Indexes(index, items)
      && (cache.Some? ==> SortedListing(cache.value, items))
    }

    constructor ()
      ensures Valid() && items == map[]
    {
      items, index, cache := map[], [], None;
    }

    function Get(nonce: nat): (r: Option<Tx>)
      reads this
      ensures Keyed(items) && r.Some? ==> r.value.nonce == nonce
      ensures r.Some? <==> nonce in items
    {
      if nonce in items then Some(items[nonce]) else None
    }

    method Put(tx: Tx)
      requires Valid()
      modifies this
      ensures Valid() && items == old(items)[tx.nonce := tx]
    {
      if tx.nonce !in items {
        index := PushNonce(index, items, tx);
      } else {
        assert items[tx.nonce := tx].Keys == items.Keys;
      }
      items, cache := items[tx.nonce := tx], None;
    }

    /** Drops every nonce below the threshold and returns them in nonce order. */
    method Forward(threshold: nat) returns (removed: seq<Tx>)
      requires Valid()
      modifies this
      ensures Valid() && items == AtLeast(old(items), threshold)
      ensures SortedListing(removed, Below(old(items), threshold))
    {
      items, index, removed := PopBelow(items, index, threshold);
      if cache.Some? {
        CacheSuffix(cache.value, removed, old(items), threshold);
        cache := Some(cache.value[|removed|..]);
      }
    }

    /** Removes what `p` selects, without repairing the heap. */
    method FilterRaw(p: Tx -> bool) returns (removed: seq<Tx>)
      requires Keyed(items)
      modifies this
      ensures items == Without(old(items), p) && Lists(removed, Where(old(items), p))
      ensures index == old(index)
      ensures cache == if removed == [] then old(cache) else None
    {
      removed := Values(Where(items, p));
      items := Without(items, p);
      if |removed| > 0 {
        cache := None;
      }
    }

    method Reheap()
      requires Keyed(items)
      modifies this
      ensures Valid() && items == old(items)
    {
      var keys := Nonces(items);
      index := InitIndex(keys, items);
      cache := None;
    }

    method Filter(p: Tx -> bool) returns (removed: seq<Tx>)
      requires Valid()
      modifies this
      ensures Valid() && items == Without(old(items), p)
      ensures Lists(removed, Where(old(items), p))
    {
      removed := FilterRaw(p);
      if |removed| > 0 {
        Reheap();
      } else {
        NothingFiltered(removed, old(items), p);
      }
    }

    /** Keeps the `threshold` lowest nonces; drops the rest, highest first. */
    method Cap(threshold: nat) returns (drops: seq<Tx>)
      requires Valid()
      modifies this
      ensures Valid() && LowestOf(items, old(items), threshold)
      ensures Lists(drops, old(items) - items.Keys) && Decreasing(drops)
    {
      hide Lists, SortedListing, Decreasing;
      if |items| <= threshold {
        NothingDropped(items);
        return [];
      }
      ghost var bound;
      items, index, drops, bound := CapItems(items, index, threshold);
      if cache.Some? {
        CachePrefix(cache.value, old(items), bound, drops);
        cache := Some(cache.value[..|cache.value| - |drops|]);
      }
    }

    method Remove(nonce: nat) returns (found: bool)
      requires Valid()
      modifies this
      ensures Valid() && found == (nonce in old(items)) && items == old(items) - {nonce}
    {
      hide SortedListing;
      if nonce !in items {
        assert items == items - {nonce};
        return false;
      }
      IndexRoot(index, items);
      var i := Position(index, nonce);
      index := RemoveNonce(index, items, i);
      items, cache := items - {nonce}, None;
      found := true;
    }

    /** Hands out the maximal run of consecutive nonces from the least one on, unless
        that one lies after `start`. */
    method Ready(start: nat) returns (ready: seq<Tx>)
      requires Valid()
      modifies this
      ensures Valid()
      ensures SortedListing(ready, ReadyItems(old(items), start))
      ensures items == old(items) - ReadyItems(old(items), start).Keys
    {
      hide SortedListing, ReadyItems, Indexes;
      ReadyFrom(items, index, start);
      if |index| == 0 || index[0] > start {
        assert items == items - ReadyItems(items, start).Keys;
        return [];
      }
      items, index, ready := PopRun(items, index);
      cache := None;
    }

    /** Sorts the contents unless a sorted listing is cached. */
    method FlattenRaw() returns (s: seq<Tx>)
      requires Valid()
      modifies this`cache
      ensures Valid() && SortedListing(s, items) && cache == Some(s)
    {
      if cache.None? {
        var txs := Values(items);
        var sorted := SortByNonce(txs, items);
        cache := Some(sorted);
      }
      s := cache.value;
    }

    method LastElement() returns (tx: Tx)
      requires Valid() && items != map[]
      modifies this`cache
      ensures Valid() && tx.nonce in items && tx == items[tx.nonce] && forall n :: n in items ==> n <= tx.nonce
    {
      var s := FlattenRaw();
      LastIsHighest(s, items);
      tx := s[|s| - 1];
    }
  }

  lemma NothingFiltered(removed: seq<Tx>, m: Items, p: Tx -> bool)
    requires Lists(removed, Where(m, p)) && removed == []
    ensures Without(m, p) == m
  {
    forall n | n in m ensures !p(m[n]) {
      if p(m[n]) { var i := ListingCovers(removed, Where(m, p), n); }
    }
  }

  /** The sorted listing of the higher nonces is a suffix of the whole sorted listing. */
  lemma CacheSuffix(s: seq<Tx>, removed: seq<Tx>, m: Items, threshold: nat)
    requires SortedListing(s, m) && SortedListing(removed, Below(m, threshold))
    ensures |removed| <= |s| && SortedListing(s[|removed|..], AtLeast(m, threshold))
  {
    var low, high := SplitListing(s, m, threshold);
    SortedListingUnique(removed, low, Below(m, threshold));
    assert s[|removed|..] == high;
  }

  lemma SplitListing(s: seq<Tx>, m: Items, threshold: nat) returns (low: seq<Tx>, high: seq<Tx>)
    requires SortedListing(s, m)
    ensures s == low + high
    ensures SortedListing(low, Below(m, threshold)) && SortedListing(high, AtLeast(m, threshold))
  {
    var k := CutPoint(s, threshold);
    PrefixListing(s, m, threshold, k);
    SuffixListing(s, m, threshold, k);
    low, high := s[..k], s[k..];
  }

  lemma CutPoint(s: seq<Tx>, threshold: nat) returns (k: nat)
    requires Increasing(s)
    ensures k <= |s| && forall i :: 0 <= i < |s| ==> (s[i].nonce < threshold <==> i < k)
  {
    k := 0;
    while k < |s| && s[k].nonce < threshold
      invariant k <= |s| && forall i :: 0 <= i < k ==> s[i].nonce < threshold
    {
      k := k + 1;
    }
  }

  lemma PrefixListing(s: seq<Tx>, m: Items, threshold: nat, k: nat)
    requires SortedListing(s, m) && k <= |s|
    requires forall i :: 0 <= i < |s| ==> (s[i].nonce < threshold <==> i < k)
    ensures SortedListing(s[..k], Below(m, threshold))
  {
    SplitSizes(s, m, threshold, k);
  }

  lemma SuffixListing(s: seq<Tx>, m: Items, threshold: nat, k: nat)
    requires SortedListing(s, m) && k <= |s|
    requires forall i :: 0 <= i < |s| ==> (s[i].nonce < threshold <==> i < k)
    ensures SortedListing(s[k..], AtLeast(m, threshold))
  {
    SplitSizes(s, m, threshold, k);
  }

  lemma {:induction false} SplitSizes(s: seq<Tx>, m: Items, threshold: nat, k: nat)
    requires SortedListing(s, m) && k <= |s|
    requires forall i :: 0 <= i < |s| ==> (s[i].nonce < threshold <==> i < k)
    ensures |Below(m, threshold)| == k && |AtLeast(m, threshold)| == |s| - k
  {
    if s == [] {
      assert m.Keys == {};
      assert Below(m, threshold) == map[] && AtLeast(m, threshold) == map[];
    } else {
      var i, n := |s| - 1, s[|s| - 1].nonce;
      ListingButLast(s, m);
      SplitSizes(s[..i], m - {n}, threshold, if k <= i then k else i);
      SplitMinus(m, n, threshold);
    }
  }

  lemma SplitMinus(m: Items, n: nat, threshold: nat)
    requires n in m
    ensures |Below(m, threshold)| == |Below(m - {n}, threshold)| + if n < threshold then 1 else 0
    ensures |AtLeast(m, threshold)| == |AtLeast(m - {n}, threshold)| + if n < threshold then 0 else 1
  {
    if n < threshold {
      BelowMinus(m, n, threshold);
      assert AtLeast(m, threshold) == AtLeast(m - {n}, threshold);
    } else {
      AtLeastMinus(m, n, threshold);
      assert Below(m, threshold) == Below(m - {n}, threshold);
    }
  }

  lemma BelowMinus(m: Items, n: nat, threshold: nat)
    requires n in m && n < threshold
    ensures |Below(m, threshold)| == |Below(m - {n}, threshold)| + 1
  {
    assert Below(m, threshold).Keys == Below(m - {n}, threshold).Keys + {n};
  }

  lemma AtLeastMinus(m: Items, n: nat, threshold: nat)
    requires n in m && n >= threshold
    ensures |AtLeast(m, threshold)| == |AtLeast(m - {n}, threshold)| + 1
  {
    assert AtLeast(m, threshold).Keys == AtLeast(m - {n}, threshold).Keys + {n};
  }

  lemma CachePrefix(s: seq<Tx>, m: Items, bound: nat, drops: seq<Tx>)
    requires SortedListing(s, m) && Lists(drops, AtLeast(m, bound))
    ensures |drops| <= |s| && SortedListing(s[..|s| - |drops|], Below(m, bound))
  {
    var low, high := SplitListing(s, m, bound);
    assert low == s[..|s| - |drops|];
  }

  /** Cutting the sorted index at `threshold` keeps the lowest nonces. */
  lemma CapKeeps(m: Items, sorted: seq<nat>, threshold: nat)
    requires threshold < |m| && SortedKeys(sorted, m)
    ensures LowestOf(Below(m, sorted[threshold]), m, threshold)
    ensures multiset(sorted[..threshold]) == multiset(Below(m, sorted[threshold]).Keys)
    ensures m - Below(m, sorted[threshold]).Keys == AtLeast(m, sorted[threshold])
  {
    var kept, cut := Below(m, sorted[threshold]), sorted[..threshold];
    assert multiset(cut) == multiset(kept.Keys) by {
      CutKeys(m, sorted, threshold);
      PrefixKeys(cut, kept);
    }
    assert |kept| == threshold by { assert |multiset(cut)| == |multiset(kept.Keys)|; }
  }

  lemma CutKeys(m: Items, sorted: seq<nat>, threshold: nat)
    requires threshold < |m| && SortedKeys(sorted, m)
    ensures forall n :: n in Below(m, sorted[threshold]) <==> n in sorted[..threshold]
  {
    forall n | n in Below(m, sorted[threshold]) ensures n in sorted[..threshold] {
      var i :| 0 <= i < |sorted| && sorted[i] == n;
      assert sorted[..threshold][i] == n;
    }
  }

  /** A sorted index lists the keys in strictly increasing order. */
  lemma SortedIndex(sorted: seq<nat>, m: Items)
    requires BinaryHeap.Ordered(sorted, BinaryHeap.NumberLess) && multiset(sorted) == multiset(m.Keys)
    ensures SortedKeys(sorted, m)
  {
    assert |multiset(sorted)| == |multiset(m.Keys)|;
    forall n ensures n in m <==> n in sorted { assert n in sorted <==> n in multiset(sorted); }
    forall i, j | 0 <= i < j < |sorted| ensures sorted[i] < sorted[j] {
      assert !BinaryHeap.NumberLess(sorted[j], sorted[i]);
      if sorted[i] == sorted[j] { Twice(sorted, i, j); }
    }
  }

  /** A sequence without repetition that holds exactly the keys is their multiset. */
  lemma {:induction false} PrefixKeys(s: seq<nat>, m: Items)
    requires forall i, j :: 0 <= i < j < |s| ==> s[i] != s[j]
    requires forall n :: n in m <==> n in s
    ensures multiset(s) == multiset(m.Keys)
  {
    forall n ensures multiset(s)[n] == multiset(m.Keys)[n] { Occurs(s, n); }
  }

  lemma {:induction false} Occurs(s: seq<nat>, n: nat)
    requires forall i, j :: 0 <= i < j < |s| ==> s[i] != s[j]
    ensures multiset(s)[n] == if n in s then 1 else 0
  {
    if s != [] {
      var k := |s| - 1;
      Occurs(s[..k], n);
      assert s == s[..k] + [s[k]];
    }
  }

  lemma SortedStaysListing(txs: seq<Tx>, sorted: seq<Tx>, m: Items)
    requires Lists(txs, m) && multiset(sorted) == multiset(txs)
    requires BinaryHeap.Ordered(sorted, TxNonceLess)
    ensures SortedListing(sorted, m)
  {
    forall i | 0 <= i < |sorted| ensures sorted[i].nonce in m && m[sorted[i].nonce] == sorted[i] {
      assert sorted[i] in multiset(sorted);
      assert sorted[i] in txs;
    }
    assert |multiset(sorted)| == |multiset(txs)|;
    forall i, j | 0 <= i < j < |sorted| ensures sorted[i].nonce < sorted[j].nonce {
      if sorted[i].nonce == sorted[j].nonce {
        assert sorted[i] == sorted[j];
        Twice(sorted, i, j);
        NoTwice(txs, sorted[i]);
      }
    }
  }

  lemma Twice<T>(s: seq<T>, i: nat, j: nat)
    requires i < j < |s| && s[i] == s[j]
    ensures multiset(s)[s[i]] >= 2
  {
    assert s == s[..j] + [s[j]] + s[j + 1..];
    assert s[i] in s[..j];
  }

  lemma {:induction false} NoTwice(s: seq<Tx>, x: Tx)
    requires forall i, j :: 0 <= i < j < |s| ==> s[i].nonce != s[j].nonce
    ensures multiset(s)[x] <= 1
  {
    if s != [] {
      var k := |s| - 1;
      assert s == s[..k] + [s[k]];
      NoTwice(s[..k], x);
      if s[k] == x && x in s[..k] {
        assert false;
      }
    }
  }
}
