/** core/tx_pool.go, TxPool: every operation keeps the lookup table, the pending and
    queued lists, the price heap and the virtual nonces consistent. */
module TxPools {
  import opened Transactions
  import opened TxLookups
  import opened TxPricedLists
  import opened PoolBooks
  import opened PoolNonces
  import opened PoolMoves
  import opened PoolTruncate
  import opened PoolAdd
  import opened PoolSteps
  import opened PoolReorg
  import opened PoolRuns
  import TxSortedMaps

  /** sanitize: limits of zero are replaced by the defaults. */
  function Sanitize(c: Config): Config {
    Config(if c.priceBump < 1 then 10 else c.priceBump,
           if c.accountSlots < 1 then 16 else c.accountSlots,
           if c.globalSlots < 1 then 4096 else c.globalSlots,
           if c.accountQueue < 1 then 64 else c.accountQueue,
           if c.globalQueue < 1 then 1024 else c.globalQueue)
  }

  ghost predicate Usable(c: Config) {
    c.priceBump > 0 && c.accountSlots > 0 && c.globalSlots > 0 && c.accountQueue > 0 && c.globalQueue > 0
  }

  /** The result is usable, a usable configuration is left alone, and each unusable limit gets its
      default whatever the others are. */
  lemma SanitizedIs(c: Config)
    ensures Usable(Sanitize(c)) && (Usable(c) ==> Sanitize(c) == c)
    ensures Sanitize(Config(0, 0, 0, 0, 0)) == Config(10, 16, 4096, 64, 1024)
    ensures var r, d := Sanitize(c), Sanitize(Config(0, 0, 0, 0, 0));
      && r.priceBump in {c.priceBump, d.priceBump} && r.accountSlots in {c.accountSlots, d.accountSlots}
      && r.globalSlots in {c.globalSlots, d.globalSlots} && r.accountQueue in {c.accountQueue, d.accountQueue}
      && r.globalQueue in {c.globalQueue, d.globalQueue}
  {
  }

  class TxPool {
    const config: Config
    const all: TxLookup
    const priced: TxPricedList
    var pendingNonces: TxNoncer
    var state: ChainState
    var maxGas: nat
    var forks: Forks
    var gasPrice: nat
    var locals: set<Address>
    var pending: Accounts
    var queue: Accounts

    ghost function P(a: Address): Items
      reads this
    {
      ItemsOf(pending, a)
    }

    ghost function Q(a: Address): Items
      reads this
    {
      ItemsOf(queue, a)
    }

    /** The books hold, with `limbo` of account `who` in transit; the price heap is ordered. */
    ghost predicate Core(who: Address, limbo: Items)
      reads this, all, priced
    {
      && priced.all == all && all.Valid() && PriceHeap(priced.heap)
      && Books(pending, queue, all.All(), who, limbo)
    }

    ghost function Next(a: Address): nat
      reads this, pendingNonces
    {
      NextIn(pendingNonces.fallback, pendingNonces.nonces, a)
    }

    /** The lookup table as a value. */
    ghost function Tab(): Table
      reads this, all
    {
      Table(all.locals, all.remotes, locals)
    }

    function Ctx(): Context
      reads this
    {
      Context(state, maxGas, forks, gasPrice, config.priceBump, config.globalSlots + config.globalQueue)
    }

    ghost function Now(): Standing
      reads this, pendingNonces
    {
      Standing(pending, queue, pendingNonces.nonces)
    }

    /** What every operation keeps. */
    ghost predicate Valid()
      reads this, all, priced
    {
      Core(0, map[]) && priced.TracksAll() && config.accountSlots >= 1
    }

    lemma Parts()
      requires Valid()
      ensures priced.all == all && all.Valid() && PriceHeap(priced.heap) && priced.TracksAll()
        && Books(pending, queue, all.All(), 0, map[])
    {
    }

    constructor (config: Config, locals: set<Address>, gasPrice: nat, state: ChainState, maxGas: nat, forks: Forks)
      ensures Valid() && all.All() == {} && pending == map[] && queue == map[]
      ensures this.config == Sanitize(config) && this.state == state && this.locals == locals
      ensures this.gasPrice == gasPrice && this.maxGas == maxGas && this.forks == forks
      ensures pendingNonces.fallback == state && pendingNonces.nonces == map[]
      ensures fresh(all) && fresh(priced) && fresh(pendingNonces)
    {
      this.config, this.locals, this.gasPrice := Sanitize(config), locals, gasPrice;
      this.state, this.maxGas, this.forks := state, maxGas, forks;
      pending, queue := map[], map[];
      var lookup := new TxLookup();
      all := lookup;
      priced := new TxPricedList(lookup);
      pendingNonces := new TxNoncer(state);
    }

    /** Takes a transaction off the lookup table and counts its price entry as stale. */
    method Unlist(tx: Tx)
      requires priced.all == all && all.Valid() && PriceHeap(priced.heap)
      modifies all, priced
      ensures all.Valid() && PriceHeap(priced.heap)
      ensures all.locals == old(all.locals) - {tx} && all.remotes == old(all.remotes) - {tx}
      ensures old(priced.TracksAll()) ==> priced.TracksAll()
    {
      hide PriceHeap, Tracks, TxLookup.Valid;
      all.Remove(tx);
      TracksIfRemoval(priced.heap, old(all.remotes), priced.stales, tx);
      priced.Removed(1);
    }

    /** Enters a transaction into the lookup table and, if remote, the price heap. */
    method Enlist(tx: Tx, local: bool)
      requires priced.all == all && all.Valid() && PriceHeap(priced.heap) && tx !in all.All()
      modifies all, priced
      ensures all.Valid() && PriceHeap(priced.heap)
      ensures all.locals == old(all.locals) + (if local then {tx} else {})
      ensures all.remotes == old(all.remotes) + (if local then {} else {tx})
      ensures old(priced.TracksAll()) ==> priced.TracksAll()
    {
      hide PriceHeap, Tracks, TxLookup.Valid;
      all.Add(tx, local);
      priced.Put(tx, local);
      TracksIfAddition(old(priced.heap), old(all.remotes), priced.stales, tx, local, priced.heap);
    }

    /** enqueueTx with addAll: a new transaction, of a nonce that is not pending, enters the
        queue. It is refused only if it fails to outbid one of the same nonce. */
    method EnqueueNew(tx: Tx, local: bool) returns (replaced: bool, ok: bool)
      requires Core(tx.from, map[]) && tx !in all.All() && tx.nonce !in P(tx.from)
      modifies this`queue, all, priced
      ensures Core(tx.from, map[])
      ensures ok == (tx.nonce in old(Q(tx.from)) ==> Outbids(tx, old(Q(tx.from))[tx.nonce], config.priceBump))
      ensures replaced == (ok && tx.nonce in old(Q(tx.from)))
      ensures !ok ==> queue == old(queue) && all.locals == old(all.locals) && all.remotes == old(all.remotes)
      ensures ok ==> Q(tx.from) == old(Q(tx.from))[tx.nonce := tx]
      ensures ok ==> var out := if replaced then {old(Q(tx.from))[tx.nonce]} else {};
                && all.locals == old(all.locals) - out + (if local then {tx} else {})
                && all.remotes == old(all.remotes) - out + (if local then {} else {tx})
      ensures SameElsewhere(tx.from, old(queue), queue)
      ensures old(priced.TracksAll()) ==> priced.TracksAll()
    {
      hide Books, Account, PriceHeap, Tracks, Added, TxLookup.Valid;
      var list := ListOf(queue, tx.from, NEW_QUEUE);
      QueueNew(pending, queue, all.All(), tx);
      if !Accepts(list, tx, config.priceBump) {
        return false, false;
      }
      replaced := tx.nonce in list.items;
      queue := queue[tx.from := Added(list, tx)];
      if replaced {
        Unlist(list.items[tx.nonce]);
      }
      Enlist(tx, local);
      assert all.All() == old(all.All()) - (if replaced then {list.items[tx.nonce]} else {}) + {tx};
      ok := true;
    }

    /** enqueueTx without addAll: a transaction in transit comes back. Its nonce is free, so
        it is neither refused nor does it replace anything. */
    method EnqueueBack(tx: Tx, ghost limbo: Items) returns (replaced: bool, ok: bool)
      requires Core(tx.from, limbo) && Has(limbo, tx)
      modifies this`queue, all, priced
      ensures Core(tx.from, limbo - {tx.nonce}) && ok && !replaced
      ensures Q(tx.from) == old(Q(tx.from))[tx.nonce := tx]
      ensures SameElsewhere(tx.from, old(queue), queue)
      ensures all.locals == old(all.locals) && all.remotes == old(all.remotes)
      ensures priced.heap == old(priced.heap) && priced.stales == old(priced.stales)
    {
      hide Books, Account, PriceHeap, Tracks, Added, TxLookup.Valid;
      var list := ListOf(queue, tx.from, NEW_QUEUE);
      QueueBack(pending, queue, all.All(), tx, limbo);
      if !Accepts(list, tx, config.priceBump) {
        assert false;  // an older transaction was better
      }
      replaced := tx.nonce in list.items;
      queue := queue[tx.from := Added(list, tx)];
      if replaced {
        assert false;  // a queued transaction of the same nonce is replaced
      }
      ok := true;
    }

    /** Puts transactions in transit back into the queue, in any order. */
    method PostponeAll(a: Address, demoted: Items)
      requires Core(a, demoted)
      modifies this`queue, all, priced
      ensures Core(a, map[]) && Q(a) == old(Q(a)) + demoted
      ensures SameElsewhere(a, old(queue), queue)
      ensures all.locals == old(all.locals) && all.remotes == old(all.remotes)
      ensures priced.heap == old(priced.heap) && priced.stales == old(priced.stales)
    {
      hide Books, Account, PriceHeap, Tracks, TxLookup.Valid, Moving, SameElsewhere, Has;
      var todo := demoted;
      MovingStart(Q(a), demoted);
      ElsewhereRefl(a, queue);
      while todo != map[]
        invariant Core(a, todo) && Moving(old(Q(a)), demoted, todo, Q(a))
        invariant SameElsewhere(a, old(queue), queue)
        invariant all.locals == old(all.locals) && all.remotes == old(all.remotes)
        invariant priced.heap == old(priced.heap) && priced.stales == old(priced.stales)
        decreases |todo|
      {
        var n :| n in todo;
        LimboOwned(pending, queue, all.All(), a, todo, n);
        MovingStep(old(Q(a)), demoted, todo, Q(a), n);
        ghost var before := queue;
        var replaced, ok := EnqueueBack(todo[n], todo);
        ElsewhereTrans(a, old(queue), before, queue);
        FewerLeft(todo, n);
        todo := todo - {n};
      }
      MovingDone(old(Q(a)), demoted, Q(a));
    }

    /** promoteTx. The nonce is free in the pending list, so the "older was better" branch
        and the replacement branch are never taken. */
    method PromoteTx(a: Address, tx: Tx, ghost limbo: Items) returns (ok: bool)
      requires Core(a, limbo) && tx.from == a && Has(limbo, tx)
      modifies this`pending, pendingNonces
      ensures ok && Core(a, limbo - {tx.nonce})
      ensures P(a) == old(P(a))[tx.nonce := tx] && SameElsewhere(a, old(pending), pending)
      ensures Next(a) == tx.nonce + 1
      ensures NextsElsewhere(a, pendingNonces.fallback, old(pendingNonces.nonces), pendingNonces.nonces)
    {
      hide Books, Account, PriceHeap, Added, NextsElsewhere;
      var list := ListOf(pending, a, NEW_PENDING);
      PendingBack(pending, queue, all.All(), tx, limbo);
      if !Accepts(list, tx, config.priceBump) {
        assert false;  // an older transaction was better
      }
      if tx.nonce in list.items {
        assert false;  // a pending transaction of the same nonce is replaced
      }
      pending := pending[a := Added(list, tx)];
      pendingNonces.Set(a, tx.nonce + 1);
      ok := true;
    }

    /** Promotes transactions in transit in nonce order. */
    method PromoteAll(a: Address, ready: Items)
      requires Core(a, ready)
      modifies this`pending, pendingNonces
      ensures Core(a, map[]) && P(a) == old(P(a)) + ready && SameElsewhere(a, old(pending), pending)
      ensures NextAfter(ready, old(Next(a)), Next(a))
      ensures NextsElsewhere(a, pendingNonces.fallback, old(pendingNonces.nonces), pendingNonces.nonces)
    {
      hide Books, Account, PriceHeap, SameElsewhere, NextAfter, SortedListing, NextsElsewhere, TxLookup.Valid,
           Promoted, NextIn, Has;
      LimboKeyed(pending, queue, all.All(), a, ready);
      var txs := TxSortedMaps.SortedValues(ready);
      ghost var todo, fb, p0, n0 := ready, pendingNonces.fallback, pending, pendingNonces.nonces;
      PromoteStart(a, txs, ready, p0, fb, n0);
      var i := 0;
      while i < |txs|
        invariant 0 <= i <= |txs| && Core(a, todo)
        invariant Promoted(a, txs, ready, todo, i, p0, pending, fb, n0, pendingNonces.nonces)
      {
        ghost var p1, n1 := pending, pendingNonces.nonces;
        PromoteHas(a, txs, ready, todo, i, p0, p1, fb, n0, n1);
        LimboOwned(pending, queue, all.All(), a, todo, txs[i].nonce);
        var ok := PromoteTx(a, txs[i], todo);
        PromoteStep(a, txs, ready, todo, i, p0, p1, pending, fb, n0, n1, pendingNonces.nonces);
        todo := todo - {txs[i].nonce};
        i := i + 1;
      }
      PromoteDone(a, txs, ready, todo, p0, pending, fb, n0, pendingNonces.nonces);
    }

    /** removeTx: takes one transaction out of the pool. If it was pending, everything of
        the account after it goes back to the queue and the virtual nonce drops to it. */
    method RemoveTx(tx: Tx, outofbound: bool)
      requires Core(tx.from, map[])
      modifies this`pending, this`queue, all, priced, pendingNonces
      ensures Core(tx.from, map[])
      ensures all.locals == old(all.locals) - {tx} && all.remotes == old(all.remotes) - {tx}
      ensures !outofbound ==> priced.heap == old(priced.heap) && priced.stales == old(priced.stales)
      ensures outofbound && old(priced.TracksAll()) ==> priced.TracksAll()
      ensures SameElsewhere(tx.from, old(pending), pending) && SameElsewhere(tx.from, old(queue), queue)
      ensures NextsElsewhere(tx.from, pendingNonces.fallback, old(pendingNonces.nonces), pendingNonces.nonces)
      ensures Removal(tx, tx in old(all.All()), old(P(tx.from)), old(Q(tx.from)), old(Next(tx.from)),
                      P(tx.from), Q(tx.from), Next(tx.from))
      ensures tx.nonce !in old(P(tx.from)) ==>
        pending == old(pending) && pendingNonces.nonces == old(pendingNonces.nonces)
    {
      hide Books, Account, PriceHeap, Tracks, TxLookup.Valid, Removal, NextIn;
      var known := all.Has(tx);
      if !known {
        NoRemoval(tx, P(tx.from), Q(tx.from), Next(tx.from), all.locals, all.remotes);
        return;
      }
      var a := tx.from;
      RemovalCases(pending, queue, all.All(), tx);
      RemovalSpec(pending, queue, all.All(), tx, Next(a));
      if outofbound {
        Unlist(tx);
      } else {
        all.Remove(tx);
      }
      assert all.All() == old(all.All()) - {tx};
      if a in pending && tx.nonce in pending[a].items {
        var list := pending[a];
        pending := Store(pending, a, list.(items := Below(list.items, tx.nonce)));
        PostponeAll(a, AtLeast(list.items, tx.nonce + 1));
        pendingNonces.SetIfLower(a, tx.nonce);
        return;
      }
      var list := queue[a];
      queue := Store(queue, a, list.(items := list.items - {tx.nonce}));
    }

    /** removeTx, stated over all accounts. */
    method RemoveOne(tx: Tx, outofbound: bool)
      requires Core(0, map[])
      modifies this`pending, this`queue, all, priced, pendingNonces
      ensures Core(0, map[])
      ensures all.locals == old(all.locals) - {tx} && all.remotes == old(all.remotes) - {tx}
      ensures !outofbound ==> priced.heap == old(priced.heap) && priced.stales == old(priced.stales)
      ensures outofbound && old(priced.TracksAll()) ==> priced.TracksAll()
      ensures AllCut(old(pending), pendingNonces.fallback, old(pendingNonces.nonces), pending, pendingNonces.nonces,
                     if tx in old(all.All()) then {tx} else {})
    {
      hide Books, Account, PriceHeap, Tracks, Removal, AllCut, SameElsewhere, NextsElsewhere, NextIn, TxLookup.Valid;
      NobodyInTransit(pending, queue, all.All(), 0, tx.from);
      RemoveTx(tx, outofbound);
      RemovalCuts(old(pending), old(queue), old(all.All()), pendingNonces.fallback, old(pendingNonces.nonces), tx,
                  pending, queue, pendingNonces.nonces);
      NobodyInTransit(pending, queue, all.All(), tx.from, 0);
    }

    /** Removes transactions that have already been taken off the price heap. */
    method RemoveTaken(drop: seq<Tx>)
      requires Core(0, map[]) && Tracks(priced.heap, drop, all.remotes, priced.stales)
      requires forall t :: t in drop ==> t in all.remotes
      modifies this`pending, this`queue, all, priced, pendingNonces
      ensures Core(0, map[]) && priced.TracksAll()
      ensures all.locals == old(all.locals) && all.remotes == old(all.remotes) - SetOf(drop)
      ensures AllCut(old(pending), pendingNonces.fallback, old(pendingNonces.nonces), pending, pendingNonces.nonces,
                     SetOf(drop))
      ensures drop == [] ==> pending == old(pending) && queue == old(queue)
    {
      hide Books, Account, PriceHeap, Tracks, AllCut, Taking, SetOf, TxLookup.Valid, NextIn;
      all.Disjoint();
      ghost var fb, done := pendingNonces.fallback, {};
      ghost var p0, n0, remotes := pending, pendingNonces.nonces, all.remotes;
      var i := 0;
      AllCutRefl(pending, fb, pendingNonces.nonces);
      TakingStart(drop, all.locals, remotes, priced.heap, priced.stales);
      while i < |drop|
        invariant 0 <= i <= |drop| && Core(0, map[])
        invariant Taking(drop, i, done, old(all.locals), remotes, all.locals, all.remotes, priced.heap, priced.stales)
        invariant AllCut(p0, fb, n0, pending, pendingNonces.nonces, done)
        invariant drop == [] ==> pending == old(pending) && queue == old(queue)
      {
        ghost var p1, n1 := pending, pendingNonces.nonces;
        ghost var gone := if drop[i] in all.All() then {drop[i]} else {};
        TakingStep(drop, i, done, old(all.locals), remotes, all.locals, all.remotes, priced.heap, priced.stales, gone);
        RemoveOne(drop[i], false);
        AllCutTrans(p0, fb, n0, p1, n1, done, pending, pendingNonces.nonces, gone);
        done := done + gone;
        i := i + 1;
      }
      TakingDone(drop, done, old(all.locals), remotes, all.locals, all.remotes, priced.heap, priced.stales);
    }

    /** Evicts the cheapest remote transactions until they free `slots` slots; unless forced,
        evicts nothing if all of them together do not. */
    method Evict(slots: nat, force: bool) returns (ok: bool, ghost evicted: set<Tx>)
      requires Valid() && slots > 0
      modifies this`pending, this`queue, all, priced, pendingNonces
      ensures Valid() && all.locals == old(all.locals) && all.remotes == old(all.remotes) - evicted
      ensures AllCut(old(pending), pendingNonces.fallback, old(pendingNonces.nonces), pending, pendingNonces.nonces,
                     evicted)
      ensures CheapestFor(old(all.remotes), evicted, slots)
      ensures evicted == {} ==> pending == old(pending) && queue == old(queue)
      ensures ok && evicted == {} ==> force && old(all.remotes) == {}
      ensures !ok ==> !force && evicted == {} && SumSlots(old(all.remotes)) < slots
      ensures ok && old(priced.stales) <= 0 ==>
        SumSlots(evicted) >= slots || (force && evicted == old(all.remotes))
    {
      hide Books, Account, PriceHeap, Tracks, AllCut, TxLookup.Valid, SlotsOf, PriceLess, CheapestFor, SumSlots;
      AllCutRefl(pending, pendingNonces.fallback, pendingNonces.nonces);
      var drop;
      drop, ok := priced.Discard(slots, force);
      evicted := SetOf(drop);
      DroppedAreCheapest(drop, all.remotes, slots);
      NothingDropped(drop);
      if ok {
        RemoveTaken(drop);
      } else {
        assert evicted == {};
      }
    }

    method TooCheap(tx: Tx) returns (low: bool)
      requires Valid()
      modifies priced
      ensures Valid() && low == NoneCheaper(all.remotes, tx) && priced.stales <= old(priced.stales)
    {
      hide Books, PriceHeap, Tracks, TxLookup.Valid;
      low := priced.Underpriced(tx);
    }

    /** The eviction step of add for a full pool: refuses a transaction that pays no more than
        every remote one, and otherwise evicts the cheapest remote transactions. */
    method Squeeze(tx: Tx, isLocal: bool) returns (err: AddError, ghost evicted: set<Tx>)
      requires Valid() && Full(Ctx(), Tab(), tx)
      modifies this`pending, this`queue, all, priced, pendingNonces
      ensures Valid() && Evicts(Ctx(), old(Tab()), tx, isLocal, err, evicted) && Tab() == Evicted(old(Tab()), evicted)
      ensures old(priced.stales) <= 0 ==> Frees(Ctx(), old(Tab()), tx, isLocal, err, evicted)
      ensures AllCut(old(pending), pendingNonces.fallback, old(pendingNonces.nonces), pending, pendingNonces.nonces,
                     evicted)
      ensures evicted == {} ==> pending == old(pending) && queue == old(queue)
    {
      hide TxPool.Valid, Books, PriceHeap, Tracks, AllCut, PriceLess, SetOf, Tx.Slots, NextIn, SumSlots, CheapestFor,
           Evicted, TxLookup.Valid, Evicts, Frees, NoneCheaper, Full;
      AllCutRefl(pending, pendingNonces.fallback, pendingNonces.nonces);
      NothingEvicted(Tab());
      if !isLocal {
        var low := TooCheap(tx);
        if low {
          TooCheapIs(Ctx(), Tab(), tx);
          return Underpriced, {};
        }
      }
      FullNeeds(Ctx(), Tab(), tx);
      Parts();
      all.Disjoint();
      SlotsCoverCount(all.All());
      var ok;
      ok, evicted := Evict(all.slots - (config.globalSlots + config.globalQueue) + tx.Slots(), isLocal);
      EvictedIs(old(Tab()), evicted, Tab());
      SqueezedIs(Ctx(), old(Tab()), tx, isLocal, ok, evicted);
      err := if !isLocal && !ok then PoolOverflow else NoError;
    }

    /** The eviction step of add. */
    method MakeRoom(tx: Tx, isLocal: bool) returns (err: AddError, ghost evicted: set<Tx>)
      requires Valid()
      modifies this`pending, this`queue, all, priced, pendingNonces
      ensures Valid() && Evicts(Ctx(), old(Tab()), tx, isLocal, err, evicted) && Tab() == Evicted(old(Tab()), evicted)
      ensures old(priced.stales) <= 0 ==> Frees(Ctx(), old(Tab()), tx, isLocal, err, evicted)
      ensures AllCut(old(pending), pendingNonces.fallback, old(pendingNonces.nonces), pending, pendingNonces.nonces,
                     evicted)
      ensures evicted == {} ==> pending == old(pending) && queue == old(queue)
    {
      hide TxPool.Valid, Books, PriceHeap, Tracks, AllCut, Tx.Slots, NextIn, SumSlots, CheapestFor, Evicted,
           TxLookup.Valid;
      AllCutRefl(pending, pendingNonces.fallback, pendingNonces.nonces);
      NothingEvicted(Tab());
      Parts();
      var count := all.Count();
      err, evicted := NoError, {};
      if count + tx.Slots() > config.globalSlots + config.globalQueue {
        err, evicted := Squeeze(tx, isLocal);
      }
    }

    /** The replacement branch of add: the nonce is already pending. */
    method ReplacePending(tx: Tx, isLocal: bool) returns (ok: bool)
      requires Valid() && tx !in all.All() && tx.nonce in P(tx.from)
      modifies this`pending, all, priced
      ensures Valid() && ok == Outbids(tx, old(P(tx.from))[tx.nonce], config.priceBump)
      ensures !ok ==> pending == old(pending) && all.locals == old(all.locals) && all.remotes == old(all.remotes)
      ensures ok ==> P(tx.from) == old(P(tx.from))[tx.nonce := tx]
      ensures ok ==> all.locals == old(all.locals) - {old(P(tx.from))[tx.nonce]} + (if isLocal then {tx} else {})
      ensures ok ==> all.remotes == old(all.remotes) - {old(P(tx.from))[tx.nonce]} + (if isLocal then {} else {tx})
      ensures SameElsewhere(tx.from, old(pending), pending)
    {
      hide Books, Account, PriceHeap, Tracks, Added, TxLookup.Valid;
      NobodyInTransit(pending, queue, all.All(), 0, tx.from);
      PendingReplaced(pending, queue, all.All(), tx);
      var list := pending[tx.from];
      if !Accepts(list, tx, config.priceBump) {
        return false;
      }
      pending := pending[tx.from := Added(list, tx)];
      Unlist(list.items[tx.nonce]);
      Enlist(tx, isLocal);
      assert all.All() == old(all.All()) - {list.items[tx.nonce]} + {tx};
      NobodyInTransit(pending, queue, all.All(), tx.from, 0);
      ok := true;
    }

    /** The last step of add: a sender seen as local for the first time takes its remote
        transactions along. */
    method MarkLocal(a: Address)
      requires Valid()
      modifies this`locals, all, priced
      ensures Valid() && locals == old(locals) + {a} && all.All() == old(all.All())
      ensures forall t :: t in all.remotes <==> t in old(all.remotes) && t.from !in locals
    {
      hide Books, Account, PriceHeap, Tracks, TxLookup.Valid;
      locals := locals + {a};
      var migrated := all.RemoteToLocals(locals);
      TracksMigration(priced.heap, old(all.remotes), priced.stales, all.remotes, migrated);
      priced.Removed(migrated);
    }

    /** The insertion step of add, once there is room: into pending if the nonce is pending
        already, into the queue otherwise. */
    method Insert(tx: Tx, isLocal: bool) returns (replaced: bool, ok: bool)
      requires Valid() && tx !in all.All()
      modifies this`pending, this`queue, all, priced
      ensures Valid() && ok == BeatsRivals(old(all.All()), tx, config.priceBump)
      ensures replaced == (ok && Rivals(old(all.All()), tx) != {})
      ensures !ok ==>
        pending == old(pending) && queue == old(queue) && all.locals == old(all.locals)
          && all.remotes == old(all.remotes)
      ensures ok ==> all.locals == old(all.locals) - Rivals(old(all.All()), tx) + (if isLocal then {tx} else {})
      ensures ok ==> all.remotes == old(all.remotes) - Rivals(old(all.All()), tx) + (if isLocal then {} else {tx})
      ensures ok ==>
        if tx.nonce in old(P(tx.from)) then P(tx.from) == old(P(tx.from))[tx.nonce := tx] && queue == old(queue)
                     else Q(tx.from) == old(Q(tx.from))[tx.nonce := tx] && pending == old(pending)
      ensures SameElsewhere(tx.from, old(pending), pending) && SameElsewhere(tx.from, old(queue), queue)
      ensures P(tx.from).Keys == old(P(tx.from)).Keys
    {
      hide Books, Account, PriceHeap, Tracks, TxLookup.Valid, Outbids, SameElsewhere, Rivals;
      ElsewhereRefl(tx.from, pending);
      ElsewhereRefl(tx.from, queue);
      NobodyInTransit(pending, queue, all.All(), 0, tx.from);
      RivalsAre(pending, queue, all.All(), tx);
      if tx.from in pending && tx.nonce in pending[tx.from].items {
        ok := ReplacePending(tx, isLocal);
        replaced := ok;
        assert P(tx.from).Keys == old(P(tx.from)).Keys;
      } else {
        replaced, ok := EnqueueNew(tx, isLocal);
        NobodyInTransit(pending, queue, all.All(), tx.from, 0);
      }
    }

    /** The end of add, from the point where there is room for the transaction. Only a sender
        whose transaction was queued becomes local, not one that replaced a pending one. */
    method Place(tx: Tx, local: bool) returns (replaced: bool, ok: bool)
      requires Valid() && tx !in all.All()
      modifies this`pending, this`queue, this`locals, all, priced
      ensures Valid() && ok == BeatsRivals(old(all.All()), tx, config.priceBump)
      ensures Tab() == if ok then Accepting(old(Tab()), tx, local, tx.nonce in old(P(tx.from))) else old(Tab())
      ensures replaced == (ok && Rivals(old(all.All()), tx) != {})
      ensures !ok ==> pending == old(pending) && queue == old(queue)
      ensures ok ==>
        if tx.nonce in old(P(tx.from)) then P(tx.from) == old(P(tx.from))[tx.nonce := tx] && queue == old(queue)
                     else Q(tx.from) == old(Q(tx.from))[tx.nonce := tx] && pending == old(pending)
      ensures SameElsewhere(tx.from, old(pending), pending) && SameElsewhere(tx.from, old(queue), queue)
      ensures P(tx.from).Keys == old(P(tx.from)).Keys
      ensures AllCut(old(pending), pendingNonces.fallback, pendingNonces.nonces, pending, pendingNonces.nonces, {})
    {
      hide Books, Account, PriceHeap, Tracks, AllCut, TxLookup.Valid, BeatsRivals, SameElsewhere, Rivals, SentBy;
      var isLocal := local || tx.from in locals;
      var overlaps := tx.from in pending && tx.nonce in pending[tx.from].items;
      replaced, ok := Insert(tx, isLocal);
      SameKeysCut(tx.from, old(pending), pending, pendingNonces.fallback, pendingNonces.nonces);
      if ok && !overlaps && local && tx.from !in locals {
        ghost var t1 := Tab();
        all.Disjoint();
        MarkLocal(tx.from);
        all.Disjoint();
        MarkedIs(t1, Tab(), tx.from);
      }
    }

    /** add: the verdict and the new lookup table are those of Adds, so besides the transaction
        itself only two kinds of change happen: the cheapest remote transactions are evicted
        when the pool is full, and one of the same sender and nonce is replaced. */
    method Add(tx: Tx, local: bool) returns (replaced: bool, err: AddError, ghost evicted: set<Tx>)
      requires Valid()
      modifies this`pending, this`queue, this`locals, all, priced, pendingNonces
      ensures Valid() && Adds(Ctx(), old(Tab()), tx, local, err, evicted, tx.nonce in P(tx.from), Tab())
      ensures replaced == (err == NoError && Rivals(Evicted(old(Tab()), evicted).All(), tx) != {})
      ensures old(priced.stales) <= 0 && err in {NoError, ReplaceUnderpriced} ==>
        Frees(Ctx(), old(Tab()), tx, local || tx.from in old(locals), NoError, evicted)
      ensures Judged(Ctx(), old(Tab()), tx, local, err, Tab())
      ensures AllCut(old(pending), pendingNonces.fallback, old(pendingNonces.nonces), pending, pendingNonces.nonces,
                     evicted)
      ensures err == NoError ==> if tx.nonce in P(tx.from) then Has(P(tx.from), tx) else Has(Q(tx.from), tx)
      ensures evicted == {} && err != NoError ==> pending == old(pending) && queue == old(queue)
      ensures evicted == {} && err == NoError ==>
        && SameElsewhere(tx.from, old(pending), pending) && SameElsewhere(tx.from, old(queue), queue)
        && if tx.nonce in old(P(tx.from)) then P(tx.from) == old(P(tx.from))[tx.nonce := tx] && queue == old(queue)
           else Q(tx.from) == old(Q(tx.from))[tx.nonce := tx] && pending == old(pending)
    {
      hide TxPool.Valid, AllCut, BeatsRivals, Rivals, Validate, Tx.Slots, Accepting, Evicts, NextIn, SameElsewhere,
           Judged, Frees;
      AllCutRefl(pending, pendingNonces.fallback, pendingNonces.nonces);
      ValidateErrors(Ctx(), tx, local || tx.from in locals);
      NothingEvicted(Tab());
      evicted, replaced := {}, false;
      var known := all.Has(tx);
      var isLocal := local || tx.from in locals;
      err := if known then AlreadyKnown else Validate(Ctx(), tx, isLocal);
      if err == NoError {
        err, evicted := MakeRoom(tx, isLocal);
        EvictsErrors(Ctx(), old(Tab()), tx, isLocal, err, evicted);
        if err == NoError {
          ghost var p1, n1 := pending, pendingNonces.nonces;
          var ok;
          replaced, ok := Place(tx, local);
          CutAndPlace(old(pending), pendingNonces.fallback, old(pendingNonces.nonces), p1, n1, evicted, pending);
          err := if ok then NoError else ReplaceUnderpriced;
        }
      }
      AddsJudges(Ctx(), old(Tab()), tx, local, err, evicted, tx.nonce in P(tx.from), Tab());
    }

    /** addTxsLocked: the transactions are added one after the other, and the accounts that got
        a transaction of a new nonce are reported. */
    method AddTxsLocked(txs: seq<Tx>, local: bool) returns (errs: seq<AddError>, dirty: set<Address>, ghost b: Batch)
      requires Valid()
      modifies this`pending, this`queue, this`locals, all, priced, pendingNonces
      ensures Valid() && Leads(Ctx(), old(Tab()), txs, local, b, Tab()) && errs == b.errs
      ensures AllCut(old(pending), pendingNonces.fallback, old(pendingNonces.nonces), pending, pendingNonces.nonces,
                     Union(b.outs))
      ensures Dirties(txs, |txs|, b, dirty)
    {
      hide TxPool.Valid, AllCut, Adds, Union, NextIn, Dirties, Rivals, Judged, Frees, SameElsewhere, Has, ItemsOf;
      errs, dirty := [], {};
      b := Batch([Tab()], [], [], []);
      AllCutRefl(pending, pendingNonces.fallback, pendingNonces.nonces);
      NoTxs(Ctx(), txs, local, b);
      ghost var p0, n0, fb := pending, pendingNonces.nonces, pendingNonces.fallback;
      assert AddsAll(Ctx(), txs[..0], local, b);
      var i := 0;
      while i < |txs|
        invariant 0 <= i <= |txs| && Valid() && AddsAll(Ctx(), txs[..i], local, b) && errs == b.errs
        invariant b.tables[0] == old(Tab()) && b.tables[i] == Tab()
        invariant AllCut(p0, fb, n0, pending, pendingNonces.nonces, Union(b.outs))
        invariant Dirties(txs, i, b, dirty)
      {
        ghost var p1, n1, b1, tab := pending, pendingNonces.nonces, b, Tab();
        ghost var out;
        var replaced, err;
        replaced, err, out := Add(txs[i], local);
        AllCutTrans(p0, fb, n0, p1, n1, Union(b.outs), pending, pendingNonces.nonces, out);
        BatchStep(Ctx(), txs, i, local, b, err, out, txs[i].nonce in P(txs[i].from), Tab());
        b := Extended(b, err, out, txs[i].nonce in P(txs[i].from), Tab());
        errs := errs + [err];
        ghost var dirty1 := dirty;
        if err == NoError && !replaced {
          dirty := dirty + {txs[i].from};
        }
        DirtyStep(txs, i, b1, b, dirty1, dirty);
        i := i + 1;
      }
      assert txs[..|txs|] == txs;
    }

    /** Removes a set of transactions from the lookup table. */
    method ForgetAll(gone: set<Tx>)
      requires all.Valid()
      modifies all
      ensures all.Valid() && all.locals == old(all.locals) - gone && all.remotes == old(all.remotes) - gone
    {
      hide TxLookup.Valid;
      var todo := gone;
      while todo != {}
        invariant all.Valid() && todo <= gone
        invariant all.locals == old(all.locals) - (gone - todo) && all.remotes == old(all.remotes) - (gone - todo)
        decreases |todo|
      {
        var tx :| tx in todo;
        all.Remove(tx);
        todo := todo - {tx};
      }
    }

    /** The first half of promoteExecutables for one account: drops what is too old or
        unpayable from the queue and takes the ready run out of it. */
    method TakeReady(a: Address) returns (ready: Items, count: nat, ghost gone: set<Tx>)
      requires Core(a, map[]) && a in queue
      modifies this`queue, all, pendingNonces
      ensures Core(a, ready)
      ensures var e := Executable(old(queue)[a], state.NonceOf(a), state.BalanceOf(a), maxGas);
        ready == ReadyItems(e, old(Next(a))) && Q(a) == e - ready.Keys
      ensures SameElsewhere(a, old(queue), queue)
      ensures Next(a) == old(Next(a))
        && NextsElsewhere(a, pendingNonces.fallback, old(pendingNonces.nonces), pendingNonces.nonces)
      ensures all.locals == old(all.locals) - gone && all.remotes == old(all.remotes) - gone && |gone| == count
    {
      hide Books, Account, PriceHeap, Tracks, NextsElsewhere, NextIn, TxLookup.Valid, Promotion, Store, SameElsewhere,
           ReadyItems, Executable, ItemsOf;
      var next := pendingNonces.Get(a);
      var plan := Promotion(queue[a], state.NonceOf(a), state.BalanceOf(a), maxGas, next);
      PromotionKeepsBooks(pending, queue, all.All(), a, state.NonceOf(a), state.BalanceOf(a), maxGas, next);
      queue := Store(queue, a, plan.left);
      ForgetAll(plan.gone);
      ready, count, gone := plan.ready, plan.count, plan.gone;
      assert all.All() == old(all.All()) - plan.gone;
    }

    /** The last part of promoteExecutables for one account: the queue of a remote account
        keeps its lowest nonces only. */
    method CapQueue(a: Address) returns (count: nat, ghost gone: set<Tx>)
      requires Core(a, map[])
      modifies this`queue, all
      ensures Core(a, map[]) && SameElsewhere(a, old(queue), queue)
      ensures if a in locals then Q(a) == old(Q(a)) else LowestOf(Q(a), old(Q(a)), config.accountQueue)
      ensures all.locals == old(all.locals) - gone && all.remotes == old(all.remotes) - gone && |gone| == count
    {
      hide Books, Account, PriceHeap, Tracks, TxLookup.Valid, SameElsewhere, ValuesOf;
      ElsewhereRefl(a, queue);
      if a in locals || a !in queue {
        return 0, {};
      }
      ListKeyed(pending, queue, all.All(), a);
      var items := queue[a].items;
      var kept := TxSortedMaps.Lowest(items, config.accountQueue);
      CapKeepsBooks(pending, queue, all.All(), a, kept, config.accountQueue);
      CapCount(items, kept, config.accountQueue);
      gone := ValuesOf(items - kept.Keys);
      queue := Store(queue, a, queue[a].(items := kept));
      ForgetAll(ValuesOf(items - kept.Keys));
      assert all.All() == old(all.All()) - gone;
      count := |items| - |kept|;
    }

    /** promoteExecutables for one account with a queue. */
    method PromoteQueued(a: Address)
      requires Core(a, map[]) && priced.TracksAll() && a in queue
      modifies this`pending, this`queue, all, priced, pendingNonces
      ensures Core(a, map[]) && priced.TracksAll() && all.locals <= old(all.locals) && all.remotes <= old(all.remotes)
      ensures SameElsewhere(a, old(pending), pending) && SameElsewhere(a, old(queue), queue)
      ensures NextsElsewhere(a, pendingNonces.fallback, old(pendingNonces.nonces), pendingNonces.nonces)
      ensures var e := Executable(old(queue)[a], state.NonceOf(a), state.BalanceOf(a), maxGas);
        var r := ReadyItems(e, old(Next(a)));
        && P(a) == old(P(a)) + r && NextAfter(r, old(Next(a)), Next(a))
        && (if a in locals then Q(a) == e - r.Keys else LowestOf(Q(a), e - r.Keys, config.accountQueue))
    {
      hide Books, Account, PriceHeap, Tracks, TxLookup.Valid, SameElsewhere, NextsElsewhere, NextIn, NextAfter,
           ReadyItems, Executable, LowestOf;
      ghost var q0, n0, r0, fb := queue, pendingNonces.nonces, all.remotes, pendingNonces.fallback;
      ghost var g1, g2;
      var ready, c1, c2;
      ready, c1, g1 := TakeReady(a);
      ghost var q1, n1 := queue, pendingNonces.nonces;
      PromoteAll(a, ready);
      c2, g2 := CapQueue(a);
      BulkTwice(priced.heap, r0, priced.stales, g1, g2, c1, c2);
      priced.Removed(c1 + c2);
      ElsewhereTrans(a, q0, q1, queue);
      NextsTrans(a, fb, n0, n1, pendingNonces.nonces);
    }

    /** promoteExecutables for one account. */
    method PromoteAccount(a: Address)
      requires Valid() && state == pendingNonces.fallback
      modifies this`pending, this`queue, all, priced, pendingNonces
      ensures Valid() && all.locals <= old(all.locals) && all.remotes <= old(all.remotes)
      ensures AllPromote(old(pending), old(pendingNonces.nonces), pending, pendingNonces.nonces, state, maxGas)
      ensures SameElsewhere(a, old(pending), pending) && SameElsewhere(a, old(queue), queue)
      ensures NextsElsewhere(a, state, old(pendingNonces.nonces), pendingNonces.nonces)
      ensures Drained(queue, pendingNonces.nonces, state, maxGas, a)
      ensures PromotedIn(old(Now()), Now(), state, maxGas, locals, config.accountQueue, a)
    {
      hide PromotedIn, Books, Account, PriceHeap, Tracks, TxLookup.Valid, SameElsewhere, AllPromote, Drained,
           NextsElsewhere, NextIn, NextAfter, ReadyItems, Executable, LowestOf;
      AllPromoteRefl(pending, pendingNonces.nonces, state, maxGas);
      ElsewhereRefl(a, pending);
      ElsewhereRefl(a, queue);
      NoQueueIsDrained(a, queue, pendingNonces.nonces, state, maxGas);
      if a !in queue {
        EmptyQueuePromoted(Now(), state, maxGas, locals, config.accountQueue, a);
        return;
      }
      NobodyInTransit(pending, queue, all.All(), 0, a);
      QueueHead(pending, queue, all.All(), a);
      ghost var was := queue[a];
      PromoteQueued(a);
      PromotedQueue(old(Now()), Now(), state, maxGas, locals, config.accountQueue, a);
      DrainedQueue(a, was, old(Next(a)), queue, pendingNonces.nonces, state, maxGas);
      PromoteOne(a, old(pending), old(queue), old(all.All()), old(pendingNonces.nonces), pending, pendingNonces.nonces,
                 state, maxGas);
      NobodyInTransit(pending, queue, all.All(), a, 0);
    }

    /** promoteExecutables: nothing that could be promoted is left in the queues it was given. */
    method PromoteExecutables(accounts: seq<Address>)
      requires Valid() && state == pendingNonces.fallback
      modifies this`pending, this`queue, all, priced, pendingNonces
      ensures Valid() && all.locals <= old(all.locals) && all.remotes <= old(all.remotes)
      ensures forall i :: 0 <= i < |accounts| ==> Drained(queue, pendingNonces.nonces, state, maxGas, accounts[i])
      ensures forall a: Address :: a !in accounts ==> SameIn(old(Now()), Now(), state, a)
      ensures Distinct(accounts) ==>
        AllPromoted(old(Now()), Now(), state, maxGas, locals, config.accountQueue, Members(accounts))
      ensures AllPromote(old(pending), old(pendingNonces.nonces), pending, pendingNonces.nonces, state, maxGas)
    {
      hide TxPool.Valid, SameElsewhere, AllPromote, Drained, NextsElsewhere, PromotedIn, AllPromoted, SameIn,
           Distinct, Members;
      AllPromoteRefl(pending, pendingNonces.nonces, state, maxGas);
      MembersAll(accounts);
      NonePromoted(Now(), state, maxGas, locals, config.accountQueue);
      var i := 0;
      while i < |accounts|
        invariant 0 <= i <= |accounts| && Valid() && all.locals <= old(all.locals) && all.remotes <= old(all.remotes)
        invariant AllPromote(old(pending), old(pendingNonces.nonces), pending, pendingNonces.nonces, state, maxGas)
        invariant forall k :: 0 <= k < i ==> Drained(queue, pendingNonces.nonces, state, maxGas, accounts[k])
        invariant forall a: Address :: a !in accounts[..i] ==> SameIn(old(Now()), Now(), state, a)
        invariant Distinct(accounts) ==>
          AllPromoted(old(Now()), Now(), state, maxGas, locals, config.accountQueue, Members(accounts[..i]))
      {
        ghost var p1, n1, q1, l1 := pending, pendingNonces.nonces, queue, Now();
        PromoteAccount(accounts[i]);
        SameOutside(old(Now()), l1, Now(), state, accounts, i);
        if Distinct(accounts) {
          MembersPlus(accounts, i);
          PromoteNext(old(Now()), l1, Now(), state, maxGas, locals, config.accountQueue, Members(accounts[..i]),
                      accounts[i]);
        }
        forall k | 0 <= k < i ensures Drained(queue, pendingNonces.nonces, state, maxGas, accounts[k]) {
          if accounts[k] != accounts[i] { StaysDrained(accounts[i], q1, n1, queue, pendingNonces.nonces, state, maxGas,
                                                       accounts[k]); }
        }
        AllPromoteTrans(old(pending), old(pendingNonces.nonces), p1, n1, pending, pendingNonces.nonces, state, maxGas);
        i := i + 1;
      }
    }

    /** demoteUnexecutables for one account. */
    method DemoteAccount(a: Address)
      requires Core(a, map[]) && priced.TracksAll() && a in pending
      modifies this`pending, this`queue, all, priced
      ensures Core(a, map[]) && priced.TracksAll() && all.locals <= old(all.locals) && all.remotes <= old(all.remotes)
      ensures SameElsewhere(a, old(pending), pending) && SameElsewhere(a, old(queue), queue)
      ensures pending.Keys >= old(pending).Keys - {a}
      ensures DemotedIn(old(Now()), Now(), state, maxGas, a)
      ensures P(a) == Demotion(old(pending)[a], state.NonceOf(a), state.BalanceOf(a), maxGas).left.items
    {
      hide Books, Account, PriceHeap, Tracks, TxLookup.Valid, SameElsewhere, Demotion, AccountDemoted;
      PendingStrict(pending, queue, all.All(), a);
      DemotionIs(pending[a], Q(a), state.NonceOf(a), state.BalanceOf(a), maxGas);
      ghost var r0 := all.remotes;
      var plan := Demotion(pending[a], state.NonceOf(a), state.BalanceOf(a), maxGas);
      DemotionKeepsBooks(pending, queue, all.All(), a, state.NonceOf(a), state.BalanceOf(a), maxGas);
      pending := Store(pending, a, plan.left);
      ForgetAll(plan.gone);
      assert all.All() == old(all.All()) - plan.gone;
      TracksBulk(priced.heap, r0, priced.stales, plan.gone, plan.count);
      priced.Removed(plan.count);
      PostponeAll(a, plan.ready);
    }

    /** demoteUnexecutables: every account keeps its payable run, the rest of it is queued. */
    method DemoteUnexecutables()
      requires Valid() && state == pendingNonces.fallback
      modifies this`pending, this`queue, all, priced
      ensures Valid() && all.locals <= old(all.locals) && all.remotes <= old(all.remotes)
      ensures Demoting(old(pending), pending, pendingNonces.nonces, {}, state, maxGas)
      ensures AllDemoted(old(Now()), Now(), state, maxGas, {})
    {
      hide Books, Account, PriceHeap, Tracks, TxLookup.Valid, SameElsewhere, Demoting, Demotes, NextIn, Demotion,
           AllDemoted, DemotedIn;
      DemotingStart(pending, pendingNonces.nonces, state, maxGas);
      DemoteStart(Now(), state, maxGas);
      var todo := pending.Keys;
      while todo != {}
        invariant Valid() && all.locals <= old(all.locals) && all.remotes <= old(all.remotes)
        invariant todo <= pending.Keys && Demoting(old(pending), pending, pendingNonces.nonces, todo, state, maxGas)
        invariant AllDemoted(old(Now()), Now(), state, maxGas, todo)
        decreases |todo|
      {
        var a :| a in todo;
        ghost var p1, l1 := pending, Now();
        NobodyInTransit(pending, queue, all.All(), 0, a);
        PendingStrict(pending, queue, all.All(), a);
        DemotionDemotes(pending[a], state.NonceOf(a), Next(a), state.BalanceOf(a), maxGas);
        DemoteAccount(a);
        DemotingStep(old(pending), p1, pending, pendingNonces.nonces, todo, a, state, maxGas);
        DemoteNext(old(Now()), l1, Now(), state, maxGas, todo, a);
        NobodyInTransit(pending, queue, all.All(), a, 0);
        todo := todo - {a};
      }
    }

    /** list.Cap(len - 1) on one pending list, as truncatePending does it: the highest nonce is
        dropped and the virtual nonce follows. */
    method DropLast(a: Address) returns (ghost out: set<Tx>)
      requires Valid() && Len(pending, a) >= 2
      modifies this`pending, all, priced, pendingNonces
      ensures Valid() && all.locals <= old(all.locals) && all.remotes <= old(all.remotes)
      ensures OneLess(old(P(a)), P(a)) && SameElsewhere(a, old(pending), pending)
        && Total(pending) == Total(old(pending)) - 1
      ensures AllCut(old(pending), pendingNonces.fallback, old(pendingNonces.nonces), pending, pendingNonces.nonces,
                     out)
    {
      hide Books, Account, PriceHeap, Tracks, TxLookup.Valid, SameElsewhere, AllCut, NextsElsewhere, NextIn, Total,
           OneLess;
      HasList(pending, a);
      var list := pending[a];
      var top := Highest(list.items);
      NobodyInTransit(pending, queue, all.All(), 0, a);
      OwnNonces(pending, queue, all.All(), a);
      DropKeepsBooks(pending, queue, all.All(), a, top);
      pending := pending[a := list.(items := list.items - {top})];
      Unlist(list.items[top]);
      pendingNonces.SetIfLower(a, top);
      assert all.All() == old(all.All()) - {list.items[top]};
      out := {list.items[top]};
      DropCuts(a, old(pending), pending, pendingNonces.fallback, old(pendingNonces.nonces), pendingNonces.nonces, top,
               list.items[top]);
      NobodyInTransit(pending, queue, all.All(), a, 0);
    }

    /** One round of truncation: every given account loses its highest nonce. */
    method CutRound(offs: seq<Address>) returns (ghost out: set<Tx>)
      requires Valid() && Distinct(offs) && forall i :: 0 <= i < |offs| ==> Len(pending, offs[i]) >= 2
      modifies this`pending, all, priced, pendingNonces
      ensures Valid() && all.locals <= old(all.locals) && all.remotes <= old(all.remotes)
      ensures Round(old(pending), pending, Members(offs)) && Total(pending) == Total(old(pending)) - |offs|
      ensures AllCut(old(pending), pendingNonces.fallback, old(pendingNonces.nonces), pending, pendingNonces.nonces,
                     out)
    {
      hide Books, Account, PriceHeap, Tracks, TxLookup.Valid, AllCut, Total, OneLess, NextIn, Round, SameElsewhere,
           Members, Distinct;
      ghost var p0, n0, fb := pending, pendingNonces.nonces, pendingNonces.fallback;
      out := {};
      AllCutRefl(pending, fb, n0);
      MembersAll(offs);
      RoundStart(pending);
      var i := 0;
      while i < |offs|
        invariant 0 <= i <= |offs| && Valid() && all.locals <= old(all.locals) && all.remotes <= old(all.remotes)
        invariant Round(p0, pending, Members(offs[..i])) && Total(pending) == Total(p0) - i
        invariant AllCut(p0, fb, n0, pending, pendingNonces.nonces, out)
      {
        ghost var p1, n1 := pending, pendingNonces.nonces;
        MembersPlus(offs, i);
        RoundKeeps(p0, pending, Members(offs[..i]), offs[i]);
        ghost var o := DropLast(offs[i]);
        RoundStep(p0, p1, pending, Members(offs[..i]), offs[i]);
        AllCutTrans(p0, fb, n0, p1, n1, out, pending, pendingNonces.nonces, o);
        out := out + o;
        i := i + 1;
      }
    }

    /** The reduction loop of truncatePending: rounds over `offs`, which are level, until the
        pool is within its limit or they are down to `floor`. */
    method LevelDown(offs: seq<Address>, floor: nat, start: nat, ghost ls0: Accounts, ghost top: nat, ghost rest: nat)
      returns (count: nat, ghost level: nat, ghost out: set<Tx>)
      requires Valid() && Distinct(offs) && offs != [] && start == Total(pending) && 1 <= floor <= top
      requires Level(ls0, pending, locals, Members(offs), top, rest) && Tight(ls0, pending, config.globalSlots)
      modifies this`pending, all, priced, pendingNonces
      ensures Valid() && all.locals <= old(all.locals) && all.remotes <= old(all.remotes)
      ensures Level(ls0, pending, locals, Members(offs), level, rest) && count == Total(pending) && floor <= level
      ensures (count <= config.globalSlots || level == floor) && Tight(ls0, pending, config.globalSlots)
      ensures AllCut(old(pending), pendingNonces.fallback, old(pendingNonces.nonces), pending, pendingNonces.nonces,
                     out)
    {
      hide Books, Account, PriceHeap, Tracks, TxLookup.Valid, AllCut, Total, NextIn, Round, Distinct, OnlyTops, Tight;
      count, level, out := start, top, {};
      ghost var p0, n0, fb := pending, pendingNonces.nonces, pendingNonces.fallback;
      AllCutRefl(pending, fb, n0);
      LevelSize(ls0, pending, locals, offs, level, rest);
      while count > config.globalSlots && |pending[offs[|offs| - 1]].items| > floor
        invariant Valid() && all.locals <= old(all.locals) && all.remotes <= old(all.remotes)
        invariant Level(ls0, pending, locals, Members(offs), level, rest) && count == Total(pending) && floor <= level
        invariant offs[|offs| - 1] in pending && |pending[offs[|offs| - 1]].items| == level
          && Tight(ls0, pending, config.globalSlots)
        invariant AllCut(p0, fb, n0, pending, pendingNonces.nonces, out)
        decreases level
      {
        ghost var p1, n1 := pending, pendingNonces.nonces;
        LevelSize(ls0, pending, locals, offs, level, rest);
        ghost var o := CutRound(offs);
        RoundTight(ls0, p1, pending, offs, config.globalSlots);
        LevelRound(ls0, p1, pending, locals, Members(offs), level, rest);
        AllCutTrans(p0, fb, n0, p1, n1, out, pending, pendingNonces.nonces, o);
        level, count, out := level - 1, count - |offs|, out + o;
        LevelSize(ls0, pending, locals, offs, level, rest);
      }
    }

    /** One turn of the loop over spammers: the largest one left becomes an offender, and the
        earlier offenders are brought down to it as far as needed. */
    method Penalise(offenders: seq<Address>, spammers: set<Address>, start: nat, ghost ls0: Accounts, ghost top: nat)
      returns (x: Address, count: nat, ghost level: nat, ghost out: set<Tx>)
      requires Valid() && spammers != {} && start == Total(pending) > config.globalSlots
      requires Truncating(ls0, pending, locals, config.accountSlots, config.globalSlots, offenders, spammers, top)
      requires Tight(ls0, pending, config.globalSlots)
      modifies this`pending, all, priced, pendingNonces
      ensures Valid() && all.locals <= old(all.locals) && all.remotes <= old(all.remotes)
      ensures x in spammers && count == Total(pending) && Tight(ls0, pending, config.globalSlots)
      ensures Truncating(ls0, pending, locals, config.accountSlots, config.globalSlots, offenders + [x], spammers - {x},
                         level)
      ensures AllCut(old(pending), pendingNonces.fallback, old(pendingNonces.nonces), pending, pendingNonces.nonces,
                     out)
    {
      hide Books, Account, PriceHeap, Tracks, TxLookup.Valid, AllCut, Total, NextIn, Distinct, OnlyTops, Level,
           Members, Tight;
      ghost var slots, limit := config.accountSlots, config.globalSlots;
      AllCutRefl(pending, pendingNonces.fallback, pendingNonces.nonces);
      SpammersHaveLists(ls0, pending, locals, slots, limit, offenders, spammers, top);
      x := Largest(pending, spammers);
      NextOffender(ls0, pending, locals, slots, limit, offenders, spammers, top, x);
      count, level, out := start, Len(pending, x), {};
      ghost var size := Len(pending, x);
      if |offenders| > 0 {
        var threshold := |pending[x].items|;
        count, level, out := LevelDown(offenders, threshold, start, ls0, top, size);
        OutsiderKeeps(ls0, old(pending), pending, locals, Members(offenders), top, level, size, x);
      } else {
        NoMembers(offenders);
      }
      OffenderDone(ls0, pending, locals, slots, limit, offenders, spammers, level, x);
    }

    /** truncatePending */
    method TruncatePending() returns (ghost out: set<Tx>)
      requires Valid()
      modifies this`pending, all, priced, pendingNonces
      ensures Valid() && all.locals <= old(all.locals) && all.remotes <= old(all.remotes)
      ensures FairlyTruncated(old(pending), pending, locals, config.accountSlots, config.globalSlots)
      ensures AllCut(old(pending), pendingNonces.fallback, old(pendingNonces.nonces), pending, pendingNonces.nonces,
                     out)
    {
      hide Books, Account, PriceHeap, Tracks, TxLookup.Valid, AllCut, Total, NextIn, OnlyTops, Level, FairlyTruncated,
           Truncating, Members, Distinct, Tight;
      ghost var p0, n0, fb := pending, pendingNonces.nonces, pendingNonces.fallback;
      ghost var slots, limit := config.accountSlots, config.globalSlots;
      out := {};
      AllCutRefl(pending, fb, n0);
      var count := Count(pending);
      if count <= config.globalSlots {
        WithinLimit(pending, locals, slots, limit);
        return;
      }
      var spammers := Spammers(pending, locals, config.accountSlots);
      var offenders: seq<Address> := [];
      ghost var level := 0;
      TruncatingStart(pending, locals, slots, limit);
      NobodyPenalised(pending, limit);
      while count > config.globalSlots && spammers != {}
        invariant Valid() && all.locals <= old(all.locals) && all.remotes <= old(all.remotes)
        invariant count == Total(pending) && Tight(p0, pending, limit)
        invariant Truncating(p0, pending, locals, slots, limit, offenders, spammers, level)
        invariant AllCut(p0, fb, n0, pending, pendingNonces.nonces, out)
        decreases |spammers|
      {
        ghost var p1, n1, o := pending, pendingNonces.nonces, {};
        var x;
        x, count, level, o := Penalise(offenders, spammers, count, p0, level);
        AllCutTrans(p0, fb, n0, p1, n1, out, pending, pendingNonces.nonces, o);
        offenders, spammers, out := offenders + [x], spammers - {x}, out + o;
      }
      if count > config.globalSlots && |offenders| > 0 {
        ghost var p1, n1, o := pending, pendingNonces.nonces, {};
        AllOffenders(p0, pending, locals, slots, limit, offenders, level);
        OffendersDistinct(p0, pending, locals, slots, limit, offenders, spammers, level);
        count, level, o := LevelDown(offenders, config.accountSlots, count, p0, level, slots);
        AllCutTrans(p0, fb, n0, p1, n1, out, pending, pendingNonces.nonces, o);
        out := out + o;
        LevelIsFair(p0, pending, locals, slots, limit, Members(offenders), level, slots);
      } else {
        StoppedFair(p0, pending, locals, slots, limit, offenders, spammers, level);
      }
    }

    /** Drops the queued transaction of an account with the highest nonce. */
    method DropQueued(a: Address)
      requires Valid() && a in queue
      modifies this`pending, this`queue, all, priced, pendingNonces
      ensures Valid() && all.locals <= old(all.locals) && all.remotes <= old(all.remotes)
      ensures pending == old(pending) && pendingNonces.nonces == old(pendingNonces.nonces)
      ensures OneLess(old(Q(a)), Q(a)) && SameElsewhere(a, old(queue), queue) && Total(queue) == Total(old(queue)) - 1
    {
      hide Books, Account, PriceHeap, Tracks, TxLookup.Valid, SameElsewhere, NextsElsewhere, NextIn, Total, OneLess,
           Removal;
      NobodyInTransit(pending, queue, all.All(), 0, a);
      QueueHead(pending, queue, all.All(), a);
      var top := Highest(queue[a].items);
      var tx := queue[a].items[top];
      QueuedTx(pending, queue, all.All(), a, top);
      RemoveTx(tx, true);
      QueuedRemoval(old(pending), old(queue), old(all.All()), pending, queue, all.All(), a, top, old(Next(a)), Next(a));
      NobodyInTransit(pending, queue, all.All(), a, 0);
    }

    /** Drops the `k` highest nonces of a queue. */
    method DropQueuedTop(a: Address, k: nat)
      requires Valid() && k <= Len(queue, a)
      modifies this`pending, this`queue, all, priced, pendingNonces
      ensures Valid() && all.locals <= old(all.locals) && all.remotes <= old(all.remotes)
      ensures pending == old(pending) && pendingNonces.nonces == old(pendingNonces.nonces)
      ensures LowestOf(Q(a), old(Q(a)), Len(queue, a)) && Len(queue, a) == Len(old(queue), a) - k
      ensures SameElsewhere(a, old(queue), queue) && Total(queue) == Total(old(queue)) - k
    {
      hide Books, Account, PriceHeap, Tracks, TxLookup.Valid, SameElsewhere, Total, OneLess, LowestOf;
      ghost var q0, total := queue, Total(queue);
      ElsewhereRefl(a, queue);
      LowestRefl(Q(a));
      var i := 0;
      while i < k
        invariant 0 <= i <= k && Valid() && all.locals <= old(all.locals) && all.remotes <= old(all.remotes)
        invariant pending == old(pending) && pendingNonces.nonces == old(pendingNonces.nonces)
        invariant LowestOf(Q(a), ItemsOf(q0, a), Len(queue, a)) && Len(queue, a) == Len(q0, a) - i
        invariant SameElsewhere(a, q0, queue) && Total(queue) == total - i
      {
        ghost var q1 := queue;
        HasList(queue, a);
        DropQueued(a);
        ElsewhereTrans(a, q0, q1, queue);
        LowestSize(Q(a), ItemsOf(q1, a));
        LowestTrans(ItemsOf(q0, a), ItemsOf(q1, a), Q(a));
        i := i + 1;
      }
    }

    /** One account of truncateQueue: the one with the latest heartbeat among those left loses
        its whole queue, or the top of it if that is enough. */
    method DropNext(ghost q0: Accounts, addresses: set<Address>, drop: nat, beats: map<Address, nat>)
        returns (a: Address, k: nat)
      requires Valid() && drop > 0 && addresses != {} && addresses <= queue.Keys
      requires QueueTruncating(q0, queue, locals, config.globalQueue, addresses, drop)
        && LatestFirst(q0, queue, locals, beats)
      modifies this`pending, this`queue, all, priced, pendingNonces
      ensures Valid() && all.locals <= old(all.locals) && all.remotes <= old(all.remotes)
      ensures pending == old(pending) && pendingNonces.nonces == old(pendingNonces.nonces)
      ensures Latest(addresses, beats, a) && k <= drop && addresses - {a} <= queue.Keys
      ensures QueueTruncating(q0, queue, locals, config.globalQueue, addresses - {a}, drop - k)
        && LatestFirst(q0, queue, locals, beats)
    {
      hide LatestFirst, Latest, Books, Account, PriceHeap, Tracks, TxLookup.Valid, SameElsewhere, Total, OnlyTops,
           LowestOf, QueueTruncated, QueueTruncating, WellFormed;
      a := NextByBeat(addresses, beats);
      ghost var q1 := queue;
      QueuesWellFormed(pending, queue, all.All());
      ListIsItems(queue, a);
      var size := |queue[a].items|;
      k := if size <= drop then size else drop;
      DropQueuedTop(a, k);
      QueuesWellFormed(pending, queue, all.All());
      KeysElsewhere(q1, queue, a, false);
      OrderStep(q0, q1, queue, locals, config.globalQueue, addresses, drop, a, beats);
      QueueStep(q0, q1, queue, locals, config.globalQueue, addresses, drop, a, k);
    }

    /** truncateQueue, given the heartbeats of the accounts. */
    method TruncateQueue(beats: map<Address, nat>)
      requires Valid()
      modifies this`pending, this`queue, all, priced, pendingNonces
      ensures Valid() && all.locals <= old(all.locals) && all.remotes <= old(all.remotes)
      ensures pending == old(pending) && pendingNonces.nonces == old(pendingNonces.nonces)
      ensures QueueTruncated(old(queue), queue, locals, config.globalQueue)
      ensures LatestFirst(old(queue), queue, locals, beats)
    {
      hide TxPool.Valid, LatestFirst, Total, QueueTruncated, QueueTruncating;
      var queued := Count(queue);
      NothingDroppedYet(queue, locals, beats);
      if queued <= config.globalQueue {
        WithinQueueLimit(queue, locals, config.globalQueue);
        return;
      }
      var addresses := queue.Keys - locals;
      var drop: nat := queued - config.globalQueue;
      ghost var q0 := queue;
      QueueStart(queue, locals, config.globalQueue);
      while drop > 0 && addresses != {}
        invariant Valid() && all.locals <= old(all.locals) && all.remotes <= old(all.remotes)
        invariant pending == old(pending) && pendingNonces.nonces == old(pendingNonces.nonces)
        invariant addresses <= queue.Keys && QueueTruncating(q0, queue, locals, config.globalQueue, addresses, drop)
        invariant LatestFirst(q0, queue, locals, beats)
        decreases |addresses|
      {
        var a, k := DropNext(q0, addresses, drop, beats);
        addresses := addresses - {a};
        drop := drop - k;
      }
      QueueDone(q0, queue, locals, config.globalQueue, addresses, drop);
    }

    /** SetGasPrice: every remote transaction below the new price leaves the pool. */
    method SetGasPrice(price: nat)
      requires Valid()
      modifies this`gasPrice, this`pending, this`queue, all, priced, pendingNonces
      ensures Valid() && gasPrice == price && all.locals == old(all.locals)
      ensures forall t :: t in all.remotes <==> t in old(all.remotes) && t.price >= price
      ensures exists out ::
        AllCut(old(pending), pendingNonces.fallback, old(pendingNonces.nonces), pending, pendingNonces.nonces, out)
    {
      hide Books, Account, PriceHeap, Tracks, TxLookup.Valid, AllCut;
      gasPrice := price;
      var drop := priced.Cap(price);
      RemoveTaken(drop);
    }

    /** A remote account loses its whole queue. */
    method EvictQueue(a: Address)
      requires Valid() && a in queue && a !in locals
      modifies this`pending, this`queue, all, priced, pendingNonces
      ensures Valid() && Q(a) == map[] && SameElsewhere(a, old(queue), queue) && Shrinks(old(Tab()), Tab())
      ensures queue.Keys >= old(queue).Keys - {a}
      ensures pending == old(pending) && pendingNonces.nonces == old(pendingNonces.nonces)
    {
      hide Books, Account, PriceHeap, Tracks, TxLookup.Valid, SameElsewhere, LowestOf, Total;
      ListIsItems(queue, a);
      ghost var q0 := queue;
      QueuesWellFormed(pending, queue, all.All());
      DropQueuedTop(a, |queue[a].items|);
      EmptyBySize(Q(a));
      QueuesWellFormed(pending, queue, all.All());
      KeysElsewhere(q0, queue, a, false);
    }

    /** The eviction of idle accounts in loop, given the heartbeats and the time. */
    method EvictIdle(beats: map<Address, nat>, now: nat, lifetime: nat)
      requires Valid()
      modifies this`pending, this`queue, all, priced, pendingNonces
      ensures Valid() && pending == old(pending) && pendingNonces.nonces == old(pendingNonces.nonces)
      ensures Shrinks(old(Tab()), Tab()) && IdleDropped(old(queue), queue, locals, beats, now, lifetime)
    {
      hide TxPool.Valid, IdleDropped, IdleSoFar, IsIdle, SameElsewhere;
      ghost var q0 := queue;
      var todo := queue.Keys;
      IdleStart(queue, locals, beats, now, lifetime);
      while todo != {}
        invariant Valid() && pending == old(pending) && pendingNonces.nonces == old(pendingNonces.nonces)
        invariant Shrinks(old(Tab()), Tab()) && todo <= queue.Keys
        invariant IdleSoFar(q0, queue, locals, beats, now, lifetime, todo)
        decreases |todo|
      {
        var a :| a in todo;
        ghost var q1 := queue;
        ElsewhereRefl(a, queue);
        if IsIdle(locals, beats, now, lifetime, a) {
          IsRemote(locals, beats, now, lifetime, a);
          EvictQueue(a);
        }
        IdleStep(q0, q1, queue, locals, beats, now, lifetime, todo, a);
        todo := todo - {a};
      }
      IdleDone(q0, queue, locals, beats, now, lifetime);
    }

    /** reset, from the point where the new state is known. An account whose nonce did not go
        back has its virtual nonce at the state nonce, or below it exactly if a pending
        transaction that the state has left behind is gone from the lookup table. */
    method Reset(req: ResetRequest) returns (ghost b: Batch)
      requires Valid() && state == pendingNonces.fallback
      modifies this, all, priced
      ensures Valid() && state == pendingNonces.fallback == req.state && maxGas == req.maxGas
        && gasPrice == old(gasPrice) && forks == req.forks && fresh(pendingNonces)
      ensures Leads(Reinjecting(old(Ctx()), req), old(Tab()), req.reinject, false, b, Tab())
      ensures AllCut(old(pending), state, map[], pending, pendingNonces.nonces, Union(b.outs))
      ensures forall a: Address :: Starts(old(pending), old(state), state, a) ==>
        if StaleGone(old(pending), all.All(), state, a) then Next(a) < state.NonceOf(a) else Next(a) == state.NonceOf(a)
    {
      hide Books, PriceHeap, Tracks, AllCut, Leads, Starts, StaleGone, StaleEviction, Union, NextIn, SumSlots;
      ghost var p0, q0, t0, st0 := pending, queue, Tab(), state;
      state, maxGas := req.state, req.maxGas;
      pendingNonces := new TxNoncer(req.state);
      var errs, dirty;
      errs, dirty, b := AddTxsLocked(req.reinject, false);
      ResetSplits(p0, st0, state, maxGas, Union(b.outs), pending, pendingNonces.nonces);
      forall a: Address ensures StaleEviction(Union(b.outs), p0, state, a) <==> StaleGone(p0, all.All(), state, a) {
        GoneIsEvicted(p0, q0, Ctx(), t0, req.reinject, b, Tab(), a);
      }
      forks := req.forks;
    }

    /** The last step of runReorg: virtual nonces are set one past the last pending ones. */
    method UpdateNonces()
      requires Valid()
      modifies pendingNonces
      ensures NoncesSet(pending, old(pendingNonces.nonces), pendingNonces.nonces, pendingNonces.fallback, {})
    {
      hide Books, Account, PriceHeap, Tracks, TxLookup.Valid, NoncesSet, NextIn, NextsElsewhere;
      ghost var n0, fb := pendingNonces.nonces, pendingNonces.fallback;
      NoncesSetStart(pending, n0, fb);
      QueuesWellFormed(pending, queue, all.All());
      var todo := pending.Keys;
      while todo != {}
        invariant todo <= pending.Keys && NoncesSet(pending, n0, pendingNonces.nonces, fb, todo)
        decreases |todo|
      {
        var a :| a in todo;
        ghost var n1 := pendingNonces.nonces;
        var top := Highest(pending[a].items);
        pendingNonces.Set(a, top + 1);
        NoncesSetStep(pending, n0, n1, pendingNonces.nonces, fb, todo, a, top);
        todo := todo - {a};
      }
    }

    /** runReorg without a reset: the given accounts are promoted, which leads to `mid`, and
        then both kinds of lists are truncated. */
    method RunPromotion(dirty: seq<Address>, beats: map<Address, nat>) returns (ghost mid: Standing)
      requires Valid() && state == pendingNonces.fallback
      modifies this`pending, this`queue, all, priced, pendingNonces
      ensures Valid()
        && WithinLimits(pending, queue, locals, config.accountSlots, config.globalSlots, config.globalQueue)
      ensures AllKeepStep(old(pending), old(pendingNonces.nonces), pending, pendingNonces.nonces, state)
      ensures Shrinks(old(Tab()), Tab())
      ensures Distinct(dirty) ==>
        AllPromoted(old(Now()), mid, state, maxGas, locals, config.accountQueue, Members(dirty))
      ensures Truncated(config, locals, mid, pending, queue, beats)
    {
      hide Books, Account, PriceHeap, Tracks, TxLookup.Valid, AllCut, AllPromote, AllKeepStep, NoncesSet,
           FairlyTruncated, QueueTruncated, LatestFirst, WithinLimits, Drained, NextIn, AllPromoted, SameIn, Distinct,
           Members;
      ghost var p0, n0 := pending, pendingNonces.nonces;
      PromoteExecutables(dirty);
      mid := Now();
      ghost var out := TruncatePending();
      ghost var p2, n2 := pending, pendingNonces.nonces;
      TruncateQueue(beats);
      TruncatedIsWithin(mid.pending, pending, mid.queue, queue, locals, config.accountSlots, config.globalSlots,
                        config.globalQueue);
      UpdateNonces();
      QueuesWellFormed(pending, queue, all.All());
      PromotionKeepsStep(p0, n0, mid.pending, mid.nonces, state, maxGas);
      CutsKeepStep(mid.pending, mid.nonces, p2, n2, state, out);
      UpdateKeepsStep(p2, n2, pendingNonces.nonces, state);
      KeepTrans(p0, n0, mid.pending, mid.nonces, p2, n2, state);
      KeepTrans(p0, n0, p2, n2, pending, pendingNonces.nonces, state);
    }

    /** runReorg with a reset: re-injection, promotion of every queue, demotion, truncation, as
        Resets tells stage by stage. An account whose nonce did not go back ends aligned if the
        table after re-injection still has all its outdated pending transactions, and behind
        otherwise; the last two clauses say when that can be told beforehand. */
    method RunReset(req: ResetRequest, beats: map<Address, nat>) returns (ghost m: Stages)
      requires Valid() && state == pendingNonces.fallback
      modifies this, all, priced
      ensures Valid() && state == pendingNonces.fallback == req.state && fresh(pendingNonces)
      ensures WithinLimits(pending, queue, locals, config.accountSlots, config.globalSlots, config.globalQueue)
      ensures Resets(config, old(Snap()), req, beats, m, Snap())
      ensures forall a: Address ::
        (Starts(old(pending), old(state), state, a)
         && (RoomForAll(Reinjecting(old(Ctx()), req), old(Tab()), req.reinject)
             || NoStaleRemote(old(pending), old(Tab()), state, a))) ==>
          Aligned(P(a), state.NonceOf(a), Next(a))
      ensures forall a: Address, n, i: nat ::
        (Starts(old(pending), old(state), state, a) && n in old(P(a)) && n < state.NonceOf(a)
         && MustEvict(Reinjecting(old(Ctx()), req), old(Tab()), req.reinject, i, old(P(a))[n])) ==>
          Behind(P(a), state.NonceOf(a), Next(a))
    {
      hide Books, Account, PriceHeap, Tracks, AllCut, AllPromote, NoncesSet, FairlyTruncated, QueueTruncated,
           LatestFirst, WithinLimits, Drained, NextIn, Demoting, AfterReset, AfterDemotion, StaleEviction, StaleGone,
           Starts, SetOf, Tx.Slots, Aligned, Outcome, Leads, Union, SumSlots, AllPromoted, AllDemoted, SameIn, Distinct,
           Members, RoomForAll, NoStaleRemote, MustEvict, Adds, AddsAll, Behind, Anchored, OnlyTops;
      ghost var p0, q0, t0, st0 := pending, queue, Tab(), state;
      ghost var b := Reset(req);
      ghost var mid, s := Tab(), Now();
      ghost var c := Reinjecting(old(Ctx()), req);
      ResetSplits(p0, st0, state, maxGas, Union(b.outs), s.pending, s.nonces);
      var addrs := AllAccounts(queue);
      PromoteExecutables(addrs);
      ghost var s1 := Now();
      PromotionKeeps(p0, st0, Union(b.outs), s.pending, s.nonces, s1.pending, s1.nonces, state, maxGas);
      DemoteUnexecutables();
      ghost var s2 := Now();
      DemotionSettlesAll(p0, st0, Union(b.outs), s1.pending, s1.nonces, s2.pending, state, maxGas);
      ghost var out := TruncatePending();
      ghost var p4, n4 := pending, pendingNonces.nonces;
      TruncationKeeps(p0, st0, Union(b.outs), s2.pending, s1.nonces, p4, n4, state, out);
      TruncateQueue(beats);
      TruncatedIsWithin(s2.pending, pending, s2.queue, queue, locals, config.accountSlots, config.globalSlots,
                        config.globalQueue);
      UpdateNonces();
      QueuesWellFormed(pending, queue, all.All());
      m := Stages(b, mid, s, s1, s2);
      forall a: Address ensures Outcome(p0, st0, mid.All(), pending, pendingNonces.nonces, state, a) {
        ResetResult(p0, q0, st0, c, t0, req.reinject, b, mid, p4, n4, pendingNonces.nonces, a);
      }
      FairTops(s2.pending, pending, locals, config.accountSlots, config.globalSlots);
      AnchoredAfter(s1, s2, state, maxGas, pending, n4, pendingNonces.nonces);
      LeadsReinjects(c, t0, req.reinject, b, mid);
      ForeseenAll(p0, q0, st0, c, t0, req.reinject, mid, pending, pendingNonces.nonces);
    }

    ghost function Snap(): Snapshot
      reads this, all, pendingNonces
    {
      Snapshot(pending, queue, pendingNonces.nonces, Ctx(), Tab())
    }

    lemma BooksKept()
      requires Valid()
      ensures Snap().Kept()
    {
      hide Books;
      all.Disjoint();
    }

    /** One operation of a run. */
    method Perform(op: Operation) returns (ghost m: Stages)
      requires Valid() && state == pendingNonces.fallback
      modifies this, all, priced, pendingNonces
      ensures Valid() && state == pendingNonces.fallback
        && (pendingNonces == old(pendingNonces) || fresh(pendingNonces))
      ensures Performs(config, old(Snap()), op, m, Snap())
    {
      hide TxPool.Valid, AllCut, AllKeepStep, NextIn, WithinLimits, AllPromoted, Union, Leads, Truncated, Starts,
           RoomForAll, NoStaleRemote, MustEvict, Resets, IdleDropped, Snapshot.Kept;
      ghost var p0, n0 := pending, pendingNonces.nonces;
      BooksKept();
      m := Stages(Batch([], [], [], []), Tab(), Now(), Now(), Now());
      KeepRefl(p0, n0, state);
      match op {
        case AddTxs(txs, local) =>
          var errs, dirty;
          ghost var b;
          errs, dirty, b := AddTxsLocked(txs, local);
          CutsKeepStep(p0, n0, pending, pendingNonces.nonces, state, Union(b.outs));
          m := m.(batch := b);
        case Promote(dirty, beats) =>
          ghost var mid := RunPromotion(dirty, beats);
          m := m.(s1 := mid);
        case ResetTo(req, beats) =>
          m := RunReset(req, beats);
          ResetContext(config, old(Snap()), req, beats, m, Snap());
        case SetPrice(price) =>
          SetGasPrice(price);
          ghost var out :| AllCut(p0, pendingNonces.fallback, n0, pending, pendingNonces.nonces, out);
          CutsKeepStep(p0, n0, pending, pendingNonces.nonces, state, out);
        case DropIdle(beats, now, lifetime) =>
          EvictIdle(beats, now, lifetime);
      }
      BooksKept();
    }

    /** Any run of the pool: the books hold throughout, and the snapshots between the operations
        are related as Performs says. An account that starts in step ends in step unless a
        reset takes its nonce back; EveryReset tells what each reset does to it. */
    method Run(ops: seq<Operation>) returns (ghost mids: seq<Stages>, ghost trace: seq<Snapshot>)
      requires Valid() && state == pendingNonces.fallback
      modifies this, all, priced, pendingNonces
      ensures Valid() && state == pendingNonces.fallback
      ensures Traces(config, ops, mids, trace) && trace[0] == old(Snap()) && trace[|ops|] == Snap()
      ensures forall a: Address :: NeverBack(ops, trace, a) && old(Snap()).Stands(a) ==> Snap().Stands(a)
    {
      hide TxPool.Valid, Performs, NeverBack, Snapshot.Stands;
      mids, trace := [], [Snap()];
      for i := 0 to |ops|
        invariant Valid() && state == pendingNonces.fallback
          && (pendingNonces == old(pendingNonces) || fresh(pendingNonces))
        invariant Traces(config, ops[..i], mids, trace) && trace[0] == old(Snap()) && trace[i] == Snap()
      {
        ghost var m := Perform(ops[i]);
        TraceStep(config, ops, i, mids, trace, m, Snap());
        mids, trace := mids + [m], trace + [Snap()];
      }
      assert ops[..|ops|] == ops;
      forall a: Address | NeverBack(ops, trace, a) && old(Snap()).Stands(a) ensures Snap().Stands(a) {
        EveryReset(config, ops, mids, trace, a, |ops|);
      }
    }
  }

  /** Any run of a new pool: every account whose nonce never goes back is in step throughout, and
      aligned after a reset if and only if that reset left its outdated pending transactions in
      the table. */
  method RunNew(config: Config, locals: set<Address>, gasPrice: nat, state: ChainState, maxGas: nat, forks: Forks,
                ops: seq<Operation>)
    returns (pool: TxPool, ghost mids: seq<Stages>, ghost trace: seq<Snapshot>)
    ensures pool.Valid() && Traces(Sanitize(config), ops, mids, trace) && trace[|ops|] == pool.Snap()
    ensures trace[0].pending == map[] && trace[0].queue == map[] && trace[0].table.All() == {}
    ensures forall i: nat :: i <= |ops| ==> Clean(trace[i].ctx.gasPrice, trace[i].table)
    ensures forall a: Address, i: nat :: i <= |ops| && NeverBack(ops, trace, a) ==> trace[i].Stands(a)
    ensures forall a: Address, i: nat :: 0 < i <= |ops| && ops[i - 1].ResetTo? && NeverBack(ops, trace, a) ==>
      (trace[i].Aligns(a) <==> !StaleGone(trace[i - 1].pending, mids[i - 1].table.All(), trace[i].ctx.state, a))
    ensures forall a: Address, i: nat :: 0 < i <= |ops| && ops[i - 1].ResetTo? ==> trace[i].Anchors(a)
  {
    hide TxPool.Valid, Performs, NeverBack, Snapshot.Stands, Snapshot.Aligns, Snapshot.Anchors, StaleGone, Clean;
    pool := new TxPool(config, locals, gasPrice, state, maxGas, forks);
    NewStands(pool.Snap());
    NothingIsClean(gasPrice, pool.Tab());
    mids, trace := pool.Run(ops);
    forall i: nat | i <= |ops| ensures Clean(trace[i].ctx.gasPrice, trace[i].table) {
      AlwaysClean(Sanitize(config), ops, mids, trace, i);
    }
    forall a: Address, i: nat | i <= |ops| && NeverBack(ops, trace, a)
      ensures trace[i].Stands(a)
      ensures i > 0 && ops[i - 1].ResetTo? ==>
        (trace[i].Aligns(a) <==> !StaleGone(trace[i - 1].pending, mids[i - 1].table.All(), trace[i].ctx.state, a))
    {
      EveryReset(Sanitize(config), ops, mids, trace, a, i);
    }
    forall a: Address, i: nat | 0 < i <= |ops| && ops[i - 1].ResetTo? ensures trace[i].Anchors(a) {
      EveryResetAnchors(Sanitize(config), ops, mids, trace, a, i - 1);
    }
  }

  method AllAccounts(ls: Accounts) returns (s: seq<Address>)
    ensures Distinct(s) && Members(s) == ls.Keys
  {
    s := [];
    var todo := ls.Keys;
    while todo != {}
      invariant todo <= ls.Keys && Distinct(s) && forall a: Address :: a in s <==> a in ls && a !in todo
      decreases |todo|
    {
      var a :| a in todo;
      s := s + [a];
      todo := todo - {a};
    }
  }
}
