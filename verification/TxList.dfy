/** core/tx_list.go, txList: a txSortedMap with cached upper bounds on cost and gas,
    proved against the plain list functions of module Transactions. */
module TxLists {
  import opened Transactions
  import opened TxSortedMaps

  // ---------------------------------------------------------------------
  // Properties of the plain list functions

  /** The caps bound every transaction, so skipping the scan when both limits are at
      or above the caps drops exactly what the scan would have dropped: nothing. */
  lemma ShortCircuitIsFullFilter(l: List, cost: nat, gas: nat)
    requires l.Valid() && l.costcap <= cost && l.gascap <= gas
    ensures Unpayable(l, cost, gas) == map[] && Invalidated(l, cost, gas) == map[]
  {
    forall n | n in l.items ensures !TooExpensive(l.items[n], cost, gas) {}
    assert Unpayable(l, cost, gas) == map[];
  }

  /** Dropped, invalidated and remaining transactions partition the old list, and the
      remaining ones are payable and within the caps. */
  lemma FilterPartitions(l: List, cost: nat, gas: nat)
    requires l.Valid()
    ensures var f := Filtered(l, cost, gas); var u := Unpayable(l, cost, gas); var v := Invalidated(l, cost, gas);
      && f.Valid() && f.strict == l.strict
      && u.Keys !! v.Keys && f.items.Keys !! u.Keys && f.items.Keys !! v.Keys
      && f.items.Keys + u.Keys + v.Keys == l.items.Keys
      && (forall n :: n in f.items ==> f.items[n] == l.items[n] && !TooExpensive(l.items[n], cost, gas))
  {
    var f, u, v := Filtered(l, cost, gas), Unpayable(l, cost, gas), Invalidated(l, cost, gas);
    if l.costcap <= cost && l.gascap <= gas {
      ShortCircuitIsFullFilter(l, cost, gas);
    }
    forall n | n in f.items ensures f.items[n] == l.items[n] && !TooExpensive(l.items[n], cost, gas) {
      assert TooExpensive(l.items[n], cost, gas) ==> n in u;
    }
  }

  /** Filtering a gapless strict list leaves a gapless list with the same start: it
      ends at the first transaction that could not be paid. */
  lemma FilterStaysGapless(l: List, cost: nat, gas: nat, lo: nat, hi: nat) returns (end: nat)
    requires l.Valid() && l.strict && Gapless(l.items, lo, hi)
    ensures lo <= end <= hi && Gapless(Filtered(l, cost, gas).items, lo, end)
    ensures end < hi ==> TooExpensive(l.items[end], cost, gas)
    ensures forall n :: lo <= n < end ==> !TooExpensive(l.items[n], cost, gas)
  {
    FilterPartitions(l, cost, gas);
    var f, u := Filtered(l, cost, gas), Unpayable(l, cost, gas);
    end := lo;
    while end < hi && !TooExpensive(l.items[end], cost, gas)
      invariant lo <= end <= hi && forall n :: lo <= n < end ==> !TooExpensive(l.items[n], cost, gas)
    {
      end := end + 1;
    }
    forall n: nat ensures n in f.items <==> lo <= n < end {
      FilterKeeps(l, cost, gas, lo, hi, end, n);
    }
  }

  lemma FilterKeeps(l: List, cost: nat, gas: nat, lo: nat, hi: nat, end: nat, n: nat)
    requires l.Valid() && l.strict && Gapless(l.items, lo, hi) && lo <= end <= hi
    requires end < hi ==> TooExpensive(l.items[end], cost, gas)
    requires forall n :: lo <= n < end ==> !TooExpensive(l.items[n], cost, gas)
    ensures n in Filtered(l, cost, gas).items <==> lo <= n < end
  {
    FilterPartitions(l, cost, gas);
    var u, v := Unpayable(l, cost, gas), Invalidated(l, cost, gas);
    forall d | d in u ensures end <= d {}
    if end < hi {
      assert end in u;
      assert end < n < hi ==> n in u || n in v;
    }
  }

  /** What Ready takes from a list whose least nonce is `lo` is gapless from there, and
      leaves nothing at its end. */
  lemma ReadyIsGapless(m: Items, start: nat) returns (lo: nat, end: nat)
    requires exists k :: k in m && k <= start
    ensures Gapless(ReadyItems(m, start), lo, end) && lo < end && lo <= start
    ensures end !in m && forall n :: n in m ==> lo <= n
  {
    lo := LeastKey(m);
    end := lo;
    while end in m
      invariant lo <= end && forall n :: lo <= n < end ==> n in m
      decreases |AtLeast(m, end)|
    {
      assert AtLeast(m, end).Keys == AtLeast(m, end + 1).Keys + {end};
      end := end + 1;
    }
    forall n ensures n in ReadyItems(m, start) <==> lo <= n < end {
      if n in m && n >= end { assert lo <= end <= n; }
    }
  }

  lemma LeastKey(m: Items) returns (lo: nat)
    requires m != map[]
    ensures lo in m && forall n :: n in m ==> lo <= n
    decreases |m|
  {
    lo :| lo in m;
    var rest := m - {lo};
    assert m.Keys == rest.Keys + {lo};
    if rest != map[] {
      var k := LeastKey(rest);
      if k < lo {
        forall n | n in m ensures k <= n { assert n == lo || n in rest; }
        lo := k;
      } else {
        forall n | n in m ensures lo <= n { assert n == lo || n in rest; }
      }
    } else {
      forall n | n in m ensures lo <= n { assert n == lo || n in rest; }
    }
  }

  /** A replacement is accepted only at a strictly higher price. */
  lemma ReplacementPaysMore(l: List, tx: Tx, bump: nat)
    requires tx.nonce in l.items && Accepts(l, tx, bump)
    ensures l.items[tx.nonce].price < tx.price
    ensures l.items[tx.nonce].price * (100 + bump) < tx.price * 100 + 100
  {
    var p := l.items[tx.nonce].price * (100 + bump);
    assert p < (p / 100) * 100 + 100;
  }

  // ---------------------------------------------------------------------
  // The list object

  class TxList {
    const strict: bool
    const txs: TxSortedMap
    var costcap: nat
    var gascap: nat

    ghost function Value(): List
      reads this, txs
    {
      List(strict, txs.items, costcap, gascap)
    }

    ghost predicate Valid()
      reads this, txs
    {
      txs.Valid() && Value().Valid()
    }

    constructor (strict: bool)
      ensures Valid() && Value() == List(strict, map[], 0, 0) && fresh(txs)
    {
      this.strict := strict;
      txs := new TxSortedMap();
      costcap, gascap := 0, 0;
    }

    method Overlaps(tx: Tx) returns (r: bool)
      ensures r == (tx.nonce in Value().items)
    {
      r := txs.Get(tx.nonce).Some?;
    }

    method Add(tx: Tx, bump: nat) returns (inserted: bool, prev: Option<Tx>)
      requires Valid()
      modifies this, txs
      ensures Valid() && inserted == Accepts(old(Value()), tx, bump)
      ensures Value() == if inserted then Added(old(Value()), tx) else old(Value())
      ensures prev == if inserted && tx.nonce in old(Value().items) then Some(old(Value().items)[tx.nonce]) else None
    {
      prev := txs.Get(tx.nonce);
      if prev.Some? {
        var threshold := (100 + bump) * prev.value.price / 100;
        assert (100 + bump) * prev.value.price == prev.value.price * (100 + bump);
        if prev.value.price >= tx.price || tx.price < threshold {
          return false, None;
        }
      }
      txs.Put(tx);
      if costcap < tx.Cost() {
        costcap := tx.Cost();
      }
      if gascap < tx.gas {
        gascap := tx.gas;
      }
      inserted := true;
    }

    method Forward(threshold: nat) returns (removed: seq<Tx>)
      requires Valid()
      modifies txs
      ensures Valid() && Value() == old(Value()).(items := AtLeast(old(Value().items), threshold))
      ensures SortedListing(removed, Below(old(Value().items), threshold))
    {
      hide TxSortedMap.Valid, SortedListing;
      removed := txs.Forward(threshold);
    }

    /** Drops what costs more than `costLimit` or needs more than `gasLimit` gas; a
        strict list also gives up everything after the first drop. */
    method Filter(costLimit: nat, gasLimit: nat) returns (removed: seq<Tx>, invalids: seq<Tx>)
      requires Valid()
      modifies this, txs
      ensures Valid() && Value() == Filtered(old(Value()), costLimit, gasLimit)
      ensures Lists(removed, Unpayable(old(Value()), costLimit, gasLimit))
      ensures Lists(invalids, Invalidated(old(Value()), costLimit, gasLimit))
    {
      hide TxSortedMap.Valid, Lists, Filtered;
      ghost var l := Value();
      FilterPartitions(l, costLimit, gasLimit);
      if costcap <= costLimit && gascap <= gasLimit {
        ShortFiltered(l, costLimit, gasLimit);
        return [], [];
      }
      costcap, gascap := costLimit, gasLimit;
      removed := txs.Filter(Expensive(costLimit, gasLimit));
      if |removed| == 0 {
        NothingRemoved(l, costLimit, gasLimit, removed);
        return [], [];
      }
      invalids := [];
      if strict {
        var lowest := LowestNonce(removed, Unpayable(l, costLimit, gasLimit));
        invalids := txs.FilterRaw(After(lowest));
        StrictFiltered(l, costLimit, gasLimit, lowest);
      } else {
        LooseFiltered(l, costLimit, gasLimit);
      }
      txs.Reheap();
    }

    method Cap(threshold: nat) returns (drops: seq<Tx>)
      requires Valid()
      modifies txs
      ensures Valid() && Value() == old(Value()).(items := Value().items)
      ensures LowestOf(Value().items, old(Value().items), threshold)
      ensures Lists(drops, old(Value().items) - Value().items.Keys)
    {
      hide TxSortedMap.Valid, Lists;
      drops := txs.Cap(threshold);
    }

    /** Removes by nonce; a strict list also gives up every later nonce. */
    method Remove(tx: Tx) returns (found: bool, invalids: seq<Tx>)
      requires Valid()
      modifies txs
      ensures Valid() && found == (tx.nonce in old(Value().items))
      ensures !found ==> Value() == old(Value()) && invalids == []
      ensures found ==> Value() == old(Value()).(items :=
                          if strict then Below(old(Value().items), tx.nonce) else old(Value().items) - {tx.nonce})
      ensures found && strict ==> Lists(invalids, AtLeast(old(Value().items), tx.nonce + 1))
      ensures !strict ==> invalids == []
    {
      hide TxSortedMap.Valid, Lists;
      var nonce := tx.nonce;
      found := txs.Remove(nonce);
      if !found {
        return false, [];
      }
      invalids := [];
      if strict {
        invalids := txs.Filter(After(nonce));
        StrictRemoved(old(txs.items), nonce);
      }
    }

    method Ready(start: nat) returns (ready: seq<Tx>)
      requires Valid()
      modifies txs
      ensures Valid()
      ensures SortedListing(ready, ReadyItems(old(Value().items), start))
      ensures Value() == old(Value()).(items := old(Value().items) - ReadyItems(old(Value().items), start).Keys)
    {
      hide TxSortedMap.Valid, SortedListing, ReadyItems;
      ready := txs.Ready(start);
    }

    method Flatten() returns (s: seq<Tx>)
      requires Valid()
      modifies txs
      ensures Valid() && Value() == old(Value()) && SortedListing(s, Value().items)
    {
      hide TxSortedMap.Valid, SortedListing;
      s := txs.FlattenRaw();
    }

    method LastElement() returns (tx: Tx)
      requires Valid() && Value().items != map[]
      modifies txs
      ensures Valid() && Value() == old(Value())
      ensures tx.nonce in Value().items && tx == Value().items[tx.nonce]
      ensures forall n :: n in Value().items ==> n <= tx.nonce
    {
      tx := txs.LastElement();
    }
  }

  lemma ShortFiltered(l: List, cost: nat, gas: nat)
    requires l.Valid() && l.costcap <= cost && l.gascap <= gas
    ensures Filtered(l, cost, gas) == l
    ensures Lists([], Unpayable(l, cost, gas)) && Lists([], Invalidated(l, cost, gas))
  {
    ShortCircuitIsFullFilter(l, cost, gas);
  }

  lemma NothingRemoved(l: List, cost: nat, gas: nat, removed: seq<Tx>)
    requires l.Valid() && !(l.costcap <= cost && l.gascap <= gas)
    requires Lists(removed, Unpayable(l, cost, gas)) && removed == []
    ensures Filtered(l, cost, gas) == List(l.strict, Without(l.items, Expensive(cost, gas)), cost, gas)
    ensures Lists([], Invalidated(l, cost, gas))
  {
    assert Unpayable(l, cost, gas) == map[];
    assert Invalidated(l, cost, gas) == map[];
    forall n | n in l.items ensures !TooExpensive(l.items[n], cost, gas) {
      assert n !in Unpayable(l, cost, gas);
    }
    assert Without(l.items, Expensive(cost, gas)) == l.items;
    assert l.items - Unpayable(l, cost, gas).Keys - Invalidated(l, cost, gas).Keys == l.items;
  }

  method LowestNonce(removed: seq<Tx>, ghost m: Items) returns (lowest: nat)
    requires removed != [] && Lists(removed, m)
    ensures lowest in m && forall n :: n in m ==> lowest <= n
  {
    lowest := removed[0].nonce;
    for i := 1 to |removed|
      invariant exists j :: 0 <= j < i && removed[j].nonce == lowest
      invariant forall j :: 0 <= j < i ==> lowest <= removed[j].nonce
    {
      if lowest > removed[i].nonce {
        lowest := removed[i].nonce;
      }
    }
    forall n | n in m ensures lowest <= n {
      var i := ListingCovers(removed, m, n);
    }
  }

  lemma StrictFiltered(l: List, cost: nat, gas: nat, lowest: nat)
    requires l.Valid() && l.strict && !(l.costcap <= cost && l.gascap <= gas)
    requires lowest in Unpayable(l, cost, gas) && forall n :: n in Unpayable(l, cost, gas) ==> lowest <= n
    ensures var left := Without(l.items, Expensive(cost, gas));
      && Where(left, After(lowest)) == Invalidated(l, cost, gas)
      && Filtered(l, cost, gas) == List(true, Without(left, After(lowest)), cost, gas)
  {
    var u := Unpayable(l, cost, gas);
    var left := Without(l.items, Expensive(cost, gas));
    forall n | n in l.items ensures n in u <==> n !in left {}
    assert Where(left, After(lowest)) == Invalidated(l, cost, gas);
    assert Without(left, After(lowest)) == l.items - u.Keys - Invalidated(l, cost, gas).Keys;
  }

  lemma LooseFiltered(l: List, cost: nat, gas: nat)
    requires l.Valid() && !l.strict && !(l.costcap <= cost && l.gascap <= gas)
    ensures Filtered(l, cost, gas) == List(false, Without(l.items, Expensive(cost, gas)), cost, gas)
    ensures Lists([], Invalidated(l, cost, gas))
  {
    assert Invalidated(l, cost, gas) == map[];
    assert l.items - Unpayable(l, cost, gas).Keys - Invalidated(l, cost, gas).Keys
        == Without(l.items, Expensive(cost, gas));
  }

  lemma StrictRemoved(m: Items, nonce: nat)
    requires Keyed(m)
    ensures Without(m - {nonce}, After(nonce)) == Below(m, nonce)
    ensures Where(m - {nonce}, After(nonce)) == AtLeast(m, nonce + 1)
  {
  }
}
