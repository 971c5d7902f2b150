/** core/tx_list.go, txPricedList: a lazily cleaned price heap over the remote
    transactions of a txLookup. */
module TxPricedLists {
  import opened Transactions
  import opened TxLookups
  import BinaryHeap

  /** Cheaper first; at equal price the higher nonce first. */
  predicate PriceLess(a: Tx, b: Tx) {
    a.price < b.price || (a.price == b.price && a.nonce > b.nonce)
  }

  lemma PriceOrder()
    ensures BinaryHeap.WeakOrder(PriceLess)
  {
  }

  ghost predicate PriceHeap(heap: seq<Tx>) {
    BinaryHeap.IsHeap(heap, PriceLess)
  }

  /** Every remote transaction is in the heap or among the `taken` ones, and together
      they hold at most `stales` entries more than there are remotes. */
  ghost predicate Tracks(heap: seq<Tx>, taken: seq<Tx>, remotes: set<Tx>, stales: int) {
    && (forall t :: t in remotes ==> t in heap || t in taken)
    && |heap| + |taken| <= |remotes| + stales
  }

  /** The number of entries of `s` that are no remote transactions. */
  ghost function Dead(s: seq<Tx>, remotes: set<Tx>): nat {
    if s == [] then 0 else (if s[0] in remotes then 0 else 1) + Dead(s[1..], remotes)
  }

  lemma {:induction false} LiveEntries(s: seq<Tx>, remotes: set<Tx>)
    requires forall t :: t in remotes ==> t in s
    ensures |remotes| + Dead(s, remotes) <= |s|
  {
    if s == [] {
      assert remotes == {};
    } else {
      var rest := remotes - {s[0]};
      forall t | t in rest ensures t in s[1..] { assert t in s; }
      LiveEntries(s[1..], rest);
      DeadAntitone(s[1..], remotes, rest);
      if s[0] in remotes { assert |remotes| == |rest| + 1; } else { assert rest == remotes; }
    }
  }

  lemma {:induction false} DeadAntitone(s: seq<Tx>, big: set<Tx>, small: set<Tx>)
    requires small <= big
    ensures Dead(s, big) <= Dead(s, small)
  {
    if s != [] { DeadAntitone(s[1..], big, small); }
  }

  /** The stale counter is never below the number of dead heap entries, hence never negative. */
  lemma StalesCoverDead(heap: seq<Tx>, remotes: set<Tx>, stales: int)
    requires Tracks(heap, [], remotes, stales)
    ensures 0 <= Dead(heap, remotes) <= stales
  {
    LiveEntries(heap, remotes);
  }

  ghost function SlotsOf(s: seq<Tx>): nat {
    if s == [] then 0 else SlotsOf(s[..|s| - 1]) + s[|s| - 1].Slots()
  }

  /** What covers the remotes takes at least their slots. */
  lemma {:induction false} CoveringSlots(s: seq<Tx>, remotes: set<Tx>)
    requires forall t :: t in remotes ==> t in s
    ensures SumSlots(remotes) <= SlotsOf(s)
  {
    if s == [] {
      assert remotes == {};
    } else {
      var last := s[|s| - 1];
      forall t | t in remotes - {last} ensures t in s[..|s| - 1] { assert t in s; }
      CoveringSlots(s[..|s| - 1], remotes - {last});
      if last in remotes { SumSlotsMinus(remotes, last); } else { assert remotes - {last} == remotes; }
    }
  }

  ghost predicate Unique(s: seq<Tx>) {
    forall i, j :: 0 <= i < j < |s| ==> s[i] != s[j]
  }

  /** Entries that cover as many remotes as there are entries are all different. */
  lemma NoDoubles(s: seq<Tx>, remotes: set<Tx>)
    requires (forall t :: t in remotes ==> t in s) && |s| <= |remotes|
    ensures Unique(s)
  {
    forall i, j | 0 <= i < j < |s| ensures s[i] != s[j] {
      if s[i] == s[j] {
        var rest := s[..j] + s[j + 1..];
        forall t | t in remotes ensures t in rest {
          var k :| 0 <= k < |s| && s[k] == t;
          assert t == if k < j then rest[k] else if k == j then rest[i] else rest[k - 1];
        }
        LiveEntries(rest, remotes);
      }
    }
  }

  lemma {:induction false} UniqueSlots(s: seq<Tx>)
    requires Unique(s)
    ensures SumSlots(SetOf(s)) == SlotsOf(s)
  {
    if s == [] {
      assert SetOf(s) == {};
    } else {
      var last, rest := s[|s| - 1], s[..|s| - 1];
      UniqueSlots(rest);
      assert SetOf(s) == SetOf(rest) + {last} && SetOf(s) - {last} == SetOf(rest);
      SumSlotsMinus(SetOf(s), last);
    }
  }

  method PushTx(heap: seq<Tx>, tx: Tx) returns (r: seq<Tx>)
    requires PriceHeap(heap)
    ensures PriceHeap(r) && multiset(r) == multiset(heap) + multiset{tx} && |r| == |heap| + 1
    ensures forall t :: t in r <==> t in heap || t == tx
  {
    hide BinaryHeap.IsHeap;
    PriceOrder();
    r := BinaryHeap.Push(heap, PriceLess, tx);
    forall t ensures t in r <==> t in heap || t == tx { assert t in r <==> t in multiset(r); }
  }

  method PopTx(heap: seq<Tx>) returns (tx: Tx, r: seq<Tx>)
    requires PriceHeap(heap) && heap != []
    ensures PriceHeap(r) && tx == heap[0] && |r| == |heap| - 1
    ensures multiset(r) == multiset(heap) - multiset{tx}
    ensures forall t :: t in heap ==> !PriceLess(t, tx)
    ensures forall t :: t in r ==> t in heap
    ensures forall t :: t in heap ==> t == tx || t in r
  {
    hide BinaryHeap.IsHeap;
    PriceOrder();
    tx, r := BinaryHeap.Pop(heap, PriceLess);
    forall t | t in r ensures t in heap { assert t in multiset(r); }
    forall t | t in heap ensures t == tx || t in r {
      if t != tx { assert t in multiset(heap); assert t in multiset(r); }
    }
  }

  lemma HeadIsCheapest(heap: seq<Tx>)
    requires PriceHeap(heap) && heap != []
    ensures forall t :: t in heap ==> !PriceLess(t, heap[0])
  {
    PriceOrder();
    forall t | t in heap ensures !PriceLess(t, heap[0]) {
      var k :| 0 <= k < |heap| && heap[k] == t;
      BinaryHeap.RootIsLeast(heap, PriceLess, k);
    }
  }

  class TxPricedList {
    const all: TxLookup
    var heap: seq<Tx>
    var stales: int

    ghost predicate TracksAll()
      reads this, all
    {
      Tracks(heap, [], all.remotes, stales)
    }

    constructor (all: TxLookup)
      ensures this.all == all && PriceHeap(heap) && heap == [] && stales == 0
    {
      this.all, heap, stales := all, [], 0;
    }

    method Put(tx: Tx, local: bool)
      requires PriceHeap(heap)
      modifies this
      ensures PriceHeap(heap) && stales == old(stales)
      ensures multiset(heap) == old(multiset(heap)) + if local then multiset{} else multiset{tx}
    {
      if local {
        return;
      }
      heap := PushTx(heap, tx);
    }

    /** Rebuilds the heap from the remote transactions. */
    method Reheap()
      modifies this
      ensures PriceHeap(heap) && stales == 0 && multiset(heap) == multiset(all.remotes)
      ensures TracksAll()
    {
      var txs: seq<Tx> := [];
      var todo := all.remotes;
      while todo != {}
        invariant multiset(txs) + multiset(todo) == multiset(all.remotes)
        decreases |todo|
      {
        var tx :| tx in todo;
        txs := txs + [tx];
        assert multiset(todo) == multiset(todo - {tx}) + multiset{tx};
        todo := todo - {tx};
      }
      PriceOrder();
      heap := BinaryHeap.Init(txs, PriceLess);
      stales := 0;
      FreshHeapTracks(heap, all.remotes);
    }

    /** Counts removed transactions as stale, and rebuilds the heap once more than a
        quarter of it is stale. */
    method Removed(count: nat)
      requires PriceHeap(heap)
      modifies this
      ensures PriceHeap(heap)
      ensures if old(stales) + count <= |old(heap)| / 4
              then heap == old(heap) && stales == old(stales) + count
              else stales == 0 && multiset(heap) == multiset(all.remotes)
      ensures Tracks(old(heap), [], all.remotes, old(stales) + count) ==> TracksAll()
    {
      hide PriceHeap;
      stales := stales + count;
      if stales <= |heap| / 4 {
        return;
      }
      Reheap();
    }

    /** Drops and returns all live remote transactions priced below the threshold. */
    method Cap(threshold: nat) returns (drop: seq<Tx>)
      requires PriceHeap(heap) && TracksAll()
      modifies this
      ensures PriceHeap(heap) && Tracks(heap, drop, all.remotes, stales)
      ensures forall t :: t in drop <==> t in all.remotes && t.price < threshold
      ensures |heap| + |drop| - stales == old(|heap|) - old(stales)
    {
      hide PriceHeap;
      drop := [];
      while |heap| > 0
        invariant PriceHeap(heap) && Tracks(heap, drop, all.remotes, stales)
        invariant forall t :: t in drop ==> t in all.remotes && t.price < threshold
        invariant |heap| + |drop| - stales == old(|heap|) - old(stales)
        decreases |heap|
      {
        var cheapest := heap[0];
        if cheapest !in all.remotes {
          var tx;
          tx, heap := PopTx(heap);
          stales := stales - 1;
          continue;
        }
        if cheapest.price >= threshold {
          HeadIsCheapest(heap);
          break;
        }
        var tx;
        tx, heap := PopTx(heap);
        drop := drop + [cheapest];
      }
    }

    /** Whether `tx` pays no more than every remote transaction; false if there is none. */
    method Underpriced(tx: Tx) returns (r: bool)
      requires PriceHeap(heap) && TracksAll()
      modifies this
      ensures PriceHeap(heap) && TracksAll() && stales <= old(stales) && |heap| - stales == old(|heap|) - old(stales)
      ensures r <==> all.remotes != {} && forall t :: t in all.remotes ==> t.price >= tx.price
    {
      hide PriceHeap;
      while |heap| > 0 && heap[0] !in all.remotes
        invariant PriceHeap(heap) && TracksAll() && stales <= old(stales)
          && |heap| - stales == old(|heap|) - old(stales)
        decreases |heap|
      {
        var head;
        stales := stales - 1;
        head, heap := PopTx(heap);
      }
      if |heap| == 0 {
        assert all.remotes == {};
        return false;
      }
      HeadIsCheapest(heap);
      r := heap[0].price >= tx.price;
    }

    /** Takes the cheapest live remote transactions until they free `slots` slots. If
        that fails and `force` is not set, everything taken is put back. */
    method Discard(slots: nat, force: bool) returns (drop: seq<Tx>, ok: bool)
      requires PriceHeap(heap) && TracksAll()
      modifies this
      ensures PriceHeap(heap) && Tracks(heap, drop, all.remotes, stales)
      ensures forall t :: t in drop ==> t in all.remotes
      ensures forall i, j :: 0 <= i < j < |drop| ==> !PriceLess(drop[j], drop[i])
      ensures forall t, d :: t in all.remotes && t !in drop && d in drop ==> !PriceLess(t, d)
      ensures ok && slots > 0 ==> SlotsOf(drop) >= slots || (force && forall t :: t in all.remotes ==> t in drop)
      ensures drop != [] ==> SlotsOf(drop[..|drop| - 1]) < slots
      ensures !ok ==> !force && drop == [] && SumSlots(all.remotes) < slots
      ensures ok ==> LiveMoved(old(heap), heap, drop, all.remotes)
      ensures |heap| + |drop| - stales == old(|heap|) - old(stales)
      ensures old(stales) <= 0 ==> Unique(drop)
      ensures ok && Unique(drop) ==>
        SumSlots(SetOf(drop)) >= slots || (force && SetOf(drop) == all.remotes)
    {
      hide PriceHeap, Unique, LiveMoved, SetOf, PriceLess, SumSlots, SlotsOf, Taken, Tracks, Tx.Slots;
      var need: int := slots;
      drop := [];
      MovedStart(heap, all.remotes);
      TakenStart(heap, all.remotes, stales);
      while |heap| > 0 && need > 0
        invariant PriceHeap(heap) && Taken(heap, drop, all.remotes, stales)
        invariant need == slots - SlotsOf(drop) && stales <= old(stales)
        invariant |heap| + |drop| - stales == old(|heap|) - old(stales)
        invariant LiveMoved(old(heap), heap, drop, all.remotes)
        invariant drop != [] ==> SlotsOf(drop[..|drop| - 1]) < slots
        decreases |heap|
      {
        var tx := PopNext(old(heap), drop);
        if tx !in all.remotes {
          stales := stales - 1;
          continue;
        }
        SlotsPlus(drop, tx);
        drop := drop + [tx];
        need := need - tx.Slots();
      }
      if need > 0 && !force {
        Exhausted(heap, drop, all.remotes, stales);
        PutBack(drop);
        return [], false;
      }
      ok := true;
      TakenIs(heap, drop, all.remotes, stales);
      DropFrees(heap, drop, all.remotes, stales, slots, force);
    }

    /** The next entry of the heap, which Discard takes if it is live. */
    method PopNext(ghost heap0: seq<Tx>, ghost drop: seq<Tx>) returns (tx: Tx)
      requires |heap| > 0 && PriceHeap(heap)
      requires Taken(heap, drop, all.remotes, stales) && LiveMoved(heap0, heap, drop, all.remotes)
      modifies this`heap
      ensures PriceHeap(heap) && |heap| == old(|heap|) - 1
      ensures if tx in all.remotes
              then Taken(heap, drop + [tx], all.remotes, stales) && LiveMoved(heap0, heap, drop + [tx], all.remotes)
              else Taken(heap, drop, all.remotes, stales - 1) && LiveMoved(heap0, heap, drop, all.remotes)
    {
      hide PriceHeap, PriceLess, Taken, LiveMoved;
      ghost var before := heap;
      tx, heap := PopTx(heap);
      TakeStep(before, tx, heap, drop, all.remotes, stales);
      MovedStep(heap0, before, tx, heap, drop, all.remotes);
    }

    method PutBack(drop: seq<Tx>)
      requires PriceHeap(heap) && Tracks(heap, drop, all.remotes, stales)
      modifies this`heap
      ensures PriceHeap(heap) && TracksAll() && |heap| == old(|heap|) + |drop|
    {
      hide PriceHeap;
      for i := 0 to |drop|
        invariant PriceHeap(heap) && Tracks(heap, drop[i..], all.remotes, stales) && |heap| == old(|heap|) + i
      {
        assert drop[i..] == [drop[i]] + drop[i + 1..];
        heap := PushTx(heap, drop[i]);
      }
    }
  }

  lemma FreshHeapTracks(heap: seq<Tx>, remotes: set<Tx>)
    requires multiset(heap) == multiset(remotes)
    ensures Tracks(heap, [], remotes, 0)
  {
    assert |multiset(heap)| == |multiset(remotes)|;
    forall t | t in remotes ensures t in heap { assert t in multiset(heap); }
  }

  /** The taken transactions are live, in price order, and no dearer than anything left. */
  ghost predicate Taken(heap: seq<Tx>, drop: seq<Tx>, remotes: set<Tx>, stales: int) {
    && Tracks(heap, drop, remotes, stales)
    && (forall t :: t in drop ==> t in remotes)
    && (forall i, j :: 0 <= i < j < |drop| ==> !PriceLess(drop[j], drop[i]))
    && (forall t, d :: t in heap && d in drop ==> !PriceLess(t, d))
  }

  lemma TakenStart(heap: seq<Tx>, remotes: set<Tx>, stales: int)
    requires Tracks(heap, [], remotes, stales)
    ensures Taken(heap, [], remotes, stales) && SlotsOf([]) == 0
  {
  }

  lemma Exhausted(heap: seq<Tx>, drop: seq<Tx>, remotes: set<Tx>, stales: int)
    requires Taken(heap, drop, remotes, stales) && heap == []
    ensures Tracks(heap, drop, remotes, stales) && SumSlots(remotes) <= SlotsOf(drop)
  {
    CoveringSlots(drop, remotes);
  }

  lemma TakenIs(heap: seq<Tx>, drop: seq<Tx>, remotes: set<Tx>, stales: int)
    requires Taken(heap, drop, remotes, stales)
    ensures Tracks(heap, drop, remotes, stales) && forall t :: t in drop ==> t in remotes
    ensures forall i, j :: 0 <= i < j < |drop| ==> !PriceLess(drop[j], drop[i])
    ensures forall t, d :: t in remotes && t !in drop && d in drop ==> !PriceLess(t, d)
    ensures heap == [] ==> forall t :: t in remotes ==> t in drop
  {
  }

  lemma SlotsPlus(drop: seq<Tx>, tx: Tx)
    ensures SlotsOf(drop + [tx]) == SlotsOf(drop) + tx.Slots() && (drop + [tx])[..|drop + [tx]| - 1] == drop
  {
    assert (drop + [tx])[..|drop|] == drop;
  }

  /** Every entry of a live transaction is still in the heap or taken, the taken ones being the
      cheapest. */
  ghost predicate LiveMoved(heap0: seq<Tx>, heap: seq<Tx>, drop: seq<Tx>, remotes: set<Tx>) {
    && (forall t, d :: t in heap && d in drop ==> !PriceLess(t, d))
    && forall t :: t in remotes ==> multiset(heap)[t] + multiset(drop)[t] == multiset(heap0)[t]
  }

  lemma MovedStart(heap: seq<Tx>, remotes: set<Tx>)
    ensures LiveMoved(heap, heap, [], remotes) && Unique([])
  {
  }

  lemma MovedStep(heap0: seq<Tx>, before: seq<Tx>, tx: Tx, heap: seq<Tx>, drop: seq<Tx>, remotes: set<Tx>)
    requires LiveMoved(heap0, before, drop, remotes) && tx in before
      && multiset(heap) == multiset(before) - multiset{tx}
    requires forall t :: t in before ==> !PriceLess(t, tx)
    requires forall t :: t in heap ==> t in before
    ensures tx !in remotes ==> LiveMoved(heap0, heap, drop, remotes)
    ensures tx in remotes ==> LiveMoved(heap0, heap, drop + [tx], remotes)
  {
  }

  /** Without stale entries nothing is taken twice, and what is taken once frees its slots. */
  lemma DropFrees(heap: seq<Tx>, drop: seq<Tx>, remotes: set<Tx>, stales: int, slots: nat, force: bool)
    requires Tracks(heap, drop, remotes, stales) && (forall t :: t in drop ==> t in remotes)
    requires slots > 0 ==> SlotsOf(drop) >= slots || (force && forall t :: t in remotes ==> t in drop)
    ensures stales <= 0 ==> Unique(drop)
    ensures Unique(drop) ==> SumSlots(SetOf(drop)) >= slots || (force && SetOf(drop) == remotes)
  {
    if stales <= 0 {
      NoDoubles(heap + drop, remotes);
      assert forall i :: 0 <= i < |drop| ==> drop[i] == (heap + drop)[|heap| + i];
    }
    if Unique(drop) { UniqueSlots(drop); }
  }

  lemma TakeStep(before: seq<Tx>, tx: Tx, heap: seq<Tx>, drop: seq<Tx>, remotes: set<Tx>, stales: int)
    requires Taken(before, drop, remotes, stales) && before != [] && tx == before[0]
    requires |heap| == |before| - 1
    requires forall t :: t in before ==> !PriceLess(t, tx)
    requires forall t :: t in heap ==> t in before
    requires forall t :: t in before ==> t == tx || t in heap
    ensures tx !in remotes ==> Taken(heap, drop, remotes, stales - 1)
    ensures tx in remotes ==> Taken(heap, drop + [tx], remotes, stales)
  {
    assert tx in before;
    if tx in remotes {
      forall t | t in remotes ensures t in heap || t in drop + [tx] { assert t in before || t in drop; }
    }
  }

  // ---------------------------------------------------------------------
  // Too little freed

  lemma {:induction false} OneEach(s: seq<Tx>)
    requires forall t :: t in s ==> t.Slots() == 1
    ensures SlotsOf(s) == |s|
  {
    if s != [] {
      OneEach(s[..|s| - 1]);
    }
  }

  lemma BothCopies(heap0: seq<Tx>, heap: seq<Tx>, drop: seq<Tx>, remotes: set<Tx>, a: Tx)
    requires LiveMoved(heap0, heap, drop, remotes) && a in remotes && multiset(heap0)[a] == 2 && |drop| == 2
    requires forall t :: t in drop ==> t == a || PriceLess(a, t)
    ensures drop == [a, a]
  {
    var x, y := drop[0], drop[1];
    assert drop == [x, y] && x in drop && y in drop;
    assert a in heap ==> !PriceLess(a, x) && !PriceLess(a, y);
    assert a in heap <==> multiset(heap)[a] > 0;
  }

  lemma TwoTaken(drop: seq<Tx>)
    requires (forall t :: t in drop ==> t.Slots() == 1) && SlotsOf(drop) >= 2
    requires drop != [] ==> SlotsOf(drop[..|drop| - 1]) < 2
    ensures |drop| == 2
  {
    OneEach(drop);
    if drop != [] { OneEach(drop[..|drop| - 1]); }
  }

  method Listing(s: seq<Tx>) returns (list: TxPricedList)
    requires Unique(s)
    ensures fresh(list) && fresh(list.all) && list.all.Valid() && PriceHeap(list.heap) && list.stales == 0
    ensures multiset(list.heap) == multiset(s) && list.all.locals == {} && list.all.remotes == SetOf(s)
  {
    hide PriceHeap, SumSlots, TxLookup.Valid;
    var all := new TxLookup();
    list := new TxPricedList(all);
    for i := 0 to |s|
      invariant all.Valid() && PriceHeap(list.heap) && list.stales == 0 && list.all == all
      invariant multiset(list.heap) == multiset(s[..i]) && all.locals == {} && all.remotes == SetOf(s[..i])
    {
      assert s[..i + 1] == s[..i] + [s[i]];
      assert s[i] !in s[..i];
      all.Add(s[i], false);
      list.Put(s[i], false);
    }
    assert s[..|s|] == s;
  }

  /** A transaction that left the pool and came back before the heap was rebuilt is taken twice,
      and two slots asked for are answered with one: stale entries are what it takes. */
  method DoubledEntryExample(s: seq<Tx>) returns (drop: seq<Tx>, ok: bool)
    requires Unique(s) && |s| == 4 && (forall t :: t in s ==> t.Slots() == 1)
    requires forall i :: 0 < i < |s| ==> s[0].price < s[i].price
    ensures ok && drop == [s[0], s[0]] && SumSlots(SetOf(drop)) == 1
  {
    hide PriceHeap, SumSlots, SlotsOf, Tx.Slots, LiveMoved, TxLookup.Valid, Unique, PriceLess;
    var list := Listing(s);
    var a := s[0];
    list.all.Remove(a);
    list.Removed(1);
    list.all.Add(a, false);
    list.Put(a, false);
    ghost var heap0, remotes := list.heap, list.all.remotes;
    Readded(s, heap0, remotes);
    drop, ok := list.Discard(2, false);
    TwoTaken(drop);
    CheapestOf(s, drop);
    BothCopies(heap0, list.heap, drop, remotes, a);
    OneSlotLeft(a);
  }

  lemma Readded(s: seq<Tx>, heap: seq<Tx>, remotes: set<Tx>)
    requires Unique(s) && |s| == 4 && (forall t :: t in s ==> t.Slots() == 1)
    requires multiset(heap) == multiset(s) + multiset{s[0]} && remotes == SetOf(s) - {s[0]} + {s[0]}
    ensures remotes == SetOf(s) && Tracks(heap, [], remotes, 1) && multiset(heap)[s[0]] == 2 && SumSlots(remotes) == 4
  {
    UniqueSlots(s);
    OneEach(s);
    forall t | t in remotes ensures t in heap { assert t in multiset(s) && t in multiset(heap); }
    assert |heap| == |multiset(heap)| == 5;
    OnceEach(s, 0);
    UniqueSize(s);
  }

  lemma OnceEach(s: seq<Tx>, i: nat)
    requires Unique(s) && i < |s|
    ensures multiset(s)[s[i]] == 1
  {
    assert s == s[..i] + [s[i]] + s[i + 1..];
    assert s[i] !in s[..i] && s[i] !in s[i + 1..];
  }

  lemma {:induction false} UniqueSize(s: seq<Tx>)
    requires Unique(s)
    ensures |SetOf(s)| == |s|
  {
    if s != [] {
      var last, rest := s[|s| - 1], s[..|s| - 1];
      UniqueSize(rest);
      assert SetOf(s) == SetOf(rest) + {last};
    }
  }

  lemma CheapestOf(s: seq<Tx>, drop: seq<Tx>)
    requires s != [] && (forall i :: 0 < i < |s| ==> s[0].price < s[i].price) && forall t :: t in drop ==> t in SetOf(s)
    ensures forall t :: t in drop ==> t == s[0] || PriceLess(s[0], t)
  {
  }

  lemma OneSlotLeft(a: Tx)
    requires a.Slots() == 1
    ensures SumSlots(SetOf([a, a])) == 1
  {
    assert SetOf([a, a]) == {a};
    SumSlotsMinus({a}, a);
    assert {a} - {a} == {};
  }
}
