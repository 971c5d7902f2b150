/** A reset that leaves the virtual nonce of an account below its state nonce. The pool has room
    for two transactions and is full: account 7 has one pending, which the new block contains,
    and one queued. Re-injecting a dearer transaction of account 9 evicts the mined one before
    demotion gets to it. */
module PoolExample {
  import opened Transactions
  import opened TxLookups
  import opened TxPricedLists
  import opened PoolBooks
  import opened PoolNonces
  import opened PoolMoves
  import opened PoolTruncate
  import opened PoolAdd
  import opened PoolSteps
  import opened PoolReorg
  import opened PoolRuns
  import opened TxPools

  const FORKS := Forks(true, true)
  const PLAIN := Payload(true, false, true, Some(1), Some(1))

  lemma OneSlot(tx: Tx)
    requires tx.size == 1
    ensures tx.Slots() == 1
  {
  }

  lemma TwoSlots(a: Tx, b: Tx)
    requires a != b && a.Slots() == b.Slots() == 1
    ensures SumSlots({a, b}) == 2
  {
    SumSlotsMinus({a, b}, a);
    assert {a, b} - {a} == {b};
    SumSlotsMinus({b}, b);
    assert {b} - {b} == {};
  }

  lemma FirstAdded(c: Context, t: Table, tx: Tx, err: AddError, out: set<Tx>, hit: bool, t': Table)
    requires Adds(c, t, tx, false, err, out, hit, t') && Validate(c, tx, false) == NoError && tx.Slots() == 1
      && c.capacity == 2
    requires t.All() == {} && t.accounts == {}
    ensures err == NoError && out == {} && t'.locals == {} && t'.accounts == {} && t'.remotes == {tx}
  {
    hide Adds, Tx.Slots, Validate;
    RoomAccepts(c, t, tx, err, out, hit, t');
    assert t.locals == {} == t.remotes;
  }

  lemma SecondAdded(c: Context, t: Table, first: Tx, tx: Tx, err: AddError, out: set<Tx>, hit: bool, t': Table)
    requires Adds(c, t, tx, false, err, out, hit, t') && Validate(c, tx, false) == NoError && tx.Slots() == 1
      && c.capacity == 2
    requires t.locals == {} && t.accounts == {} && t.remotes == {first} && tx.nonce != first.nonce
    ensures err == NoError && out == {} && t'.locals == {} && t'.accounts == {} && t'.remotes == {first, tx}
  {
    hide Adds, Tx.Slots, Validate;
    assert t.All() == {first};
    RoomAccepts(c, t, tx, err, out, hit, t');
  }

  lemma FirstGoes(c: Context, t: Table, first: Tx, second: Tx, tx: Tx)
    requires Validate(c, tx, false) == NoError && c.capacity == 2 && first.Slots() == second.Slots() == tx.Slots() == 1
    requires t.locals == {} && t.accounts == {} && t.remotes == {first, second} && first.price < tx.price
      && first.price < second.price
    requires tx.from != first.from && tx.from != second.from
    ensures MustEvict(c, t, [tx], 0, first)
  {
    hide Tx.Slots, SumSlots, Validate;
    TwoSlots(first, second);
    assert t.All() == {first, second};
  }

  lemma OneReady(tx: Tx, balance: nat, maxGas: nat)
    requires tx.nonce == 0 && !TooExpensive(tx, balance, maxGas)
    ensures var e := Payables(map[0 := tx], 0, balance, maxGas); e == map[0 := tx] && ReadyItems(e, 0) == e
  {
    hide TooExpensive;
    var e := Payables(map[0 := tx], 0, balance, maxGas);
    assert 0 in e && NoGapBelow(e, 0);
  }

  lemma FirstPromoted(l: Standing, l': Standing, state: ChainState, maxGas: nat, locals: set<Address>, cap: nat, tx: Tx)
    requires PromotedIn(l, l', state, maxGas, locals, cap, tx.from)
    requires tx.nonce == 0 == state.NonceOf(tx.from) == NextIn(state, l.nonces, tx.from)
      && !TooExpensive(tx, state.BalanceOf(tx.from), maxGas)
    requires ItemsOf(l.pending, tx.from) == map[] && ItemsOf(l.queue, tx.from) == map[0 := tx]
    ensures ItemsOf(l'.pending, tx.from) == map[0 := tx] && NextIn(state, l'.nonces, tx.from) == 1
  {
    hide Payables, ReadyItems, NextIn, ItemsOf, LowestOf, TooExpensive;
    OneReady(tx, state.BalanceOf(tx.from), maxGas);
    assert 0 in map[0 := tx];
  }

  lemma StillNext(pending: Accounts, nonces: map<Address, nat>, nonces': map<Address, nat>, state: ChainState,
                  a: Address)
    requires ItemsOf(pending, a) == map[] && NextIn(state, nonces, a) == state.NonceOf(a)
    requires AllCut(pending, state, nonces, pending, nonces', {})
    ensures NextIn(state, nonces', a) == state.NonceOf(a)
  {
    hide AllCut, NextIn, ItemsOf;
    CutsKeepStep(pending, nonces, pending, nonces', state, {});
    var sn, next' := state.NonceOf(a), NextIn(state, nonces', a);
    assert KeepsStep(ItemsOf(pending, a), NextIn(state, nonces, a), ItemsOf(pending, a), next', sn);
    assert Gapless(ItemsOf(pending, a), sn, sn);
    assert sn in ItemsOf(pending, a) <==> sn < next';
  }

  lemma OnePromoted(l: Standing, l': Standing, state: ChainState, maxGas: nat, locals: set<Address>, cap: nat,
                    a: Address)
    requires AllPromoted(l, l', state, maxGas, locals, cap, Members([a]))
    ensures PromotedIn(l, l', state, maxGas, locals, cap, a)
  {
  }

  lemma StillListed(t: Table, t': Table, tx: Tx)
    requires t.locals == {} && t.remotes == {tx} && t'.locals <= t.locals && t'.remotes <= t.remotes
    requires tx in t'.All()
    ensures t'.locals == {} && t'.remotes == {tx}
  {
  }

  lemma OnePending(pending: Accounts, state: ChainState, after: ChainState, tx: Tx)
    requires ItemsOf(pending, tx.from) == map[0 := tx] && state.NonceOf(tx.from) == 0
    ensures Starts(pending, state, after, tx.from)
  {
    assert Gapless(ItemsOf(pending, tx.from), 0, 1);
  }

  lemma ValidIsPayable(c: Context, tx: Tx)
    requires Validate(c, tx, false) == NoError
    ensures !TooExpensive(tx, c.state.BalanceOf(tx.from), c.maxGas)
  {
  }

  /** A pool with room for two that holds `mined` as pending. */
  method PendingPool(state: ChainState, mined: Tx) returns (pool: TxPool)
    requires mined.nonce == 0 == state.NonceOf(mined.from) && mined.Slots() == 1
    requires Validate(Context(state, 100, FORKS, 1, 10, 2), mined, false) == NoError
    ensures pool.Valid() && pool.state == pool.pendingNonces.fallback == state
      && pool.Ctx() == Context(state, 100, FORKS, 1, 10, 2)
    ensures pool.all.locals == {} && pool.locals == {} && pool.all.remotes == {mined}
      && pool.P(mined.from) == map[0 := mined]
    ensures fresh(pool) && fresh(pool.all) && fresh(pool.priced) && fresh(pool.pendingNonces)
  {
    hide TxPool.Valid, Adds, AllPromoted, PromotedIn, AllCut, AllPromote, Drained, Tx.Slots, Validate, Frees, Rivals;
    pool := new TxPool(Config(10, 1, 1, 1, 1), {}, 1, state, 100, FORKS);
    ghost var t0, a := pool.Tab(), mined.from;
    var replaced, err;
    ghost var out;
    replaced, err, out := pool.Add(mined, false);
    FirstAdded(pool.Ctx(), t0, mined, err, out, mined.nonce in pool.P(a), pool.Tab());
    StillNext(map[], map[], pool.pendingNonces.nonces, state, a);
    ghost var l, t1 := pool.Now(), pool.Tab();
    ValidIsPayable(pool.Ctx(), mined);
    pool.PromoteExecutables([mined.from]);
    OnePromoted(l, pool.Now(), state, 100, {}, 1, a);
    FirstPromoted(l, pool.Now(), state, 100, {}, 1, mined);
    pool.Parts();
    OwnPending(pool.pending, pool.queue, pool.all.All(), a);
    StillListed(t1, pool.Tab(), mined);
  }

  /** The same pool with `waiting` queued, which makes it full. */
  method FullPool(state: ChainState, mined: Tx, waiting: Tx) returns (pool: TxPool)
    requires mined.from == waiting.from && mined.nonce == 0 == state.NonceOf(mined.from) && waiting.nonce == 1
    requires mined.Slots() == waiting.Slots() == 1
    requires Validate(Context(state, 100, FORKS, 1, 10, 2), mined, false) == NoError ==
      Validate(Context(state, 100, FORKS, 1, 10, 2), waiting, false)
    ensures pool.Valid() && pool.state == pool.pendingNonces.fallback == state
      && pool.Ctx() == Context(state, 100, FORKS, 1, 10, 2)
    ensures pool.all.locals == {} && pool.locals == {} && pool.all.remotes == {mined, waiting}
      && pool.P(mined.from) == map[0 := mined]
    ensures fresh(pool) && fresh(pool.all) && fresh(pool.priced) && fresh(pool.pendingNonces)
  {
    hide TxPool.Valid, Adds, AllCut, Tx.Slots, Validate, Frees, Rivals;
    pool := PendingPool(state, mined);
    ghost var t := pool.Tab();
    var replaced, err;
    ghost var out;
    replaced, err, out := pool.Add(waiting, false);
    SecondAdded(pool.Ctx(), t, mined, waiting, err, out, waiting.nonce in pool.P(mined.from), pool.Tab());
  }

  /** A new head that contains `mined` and abandons a block with `reinjected` leaves the sender
      of `mined` behind. */
  method MineAndReinject(before: ChainState, after: ChainState, mined: Tx, waiting: Tx, reinjected: Tx)
      returns (pool: TxPool)
    requires mined.from == waiting.from && mined.nonce == 0 == before.NonceOf(mined.from) && waiting.nonce == 1
    requires mined.Slots() == waiting.Slots() == reinjected.Slots() == 1 && mined.price < waiting.price
      && mined.price < reinjected.price
    requires Validate(Context(before, 100, FORKS, 1, 10, 2), mined, false) == NoError ==
      Validate(Context(before, 100, FORKS, 1, 10, 2), waiting, false)
    requires reinjected.from != mined.from
      && Validate(Context(after, 100, FORKS, 1, 10, 2), reinjected, false) == NoError
    requires after.NonceOf(mined.from) == 1
    ensures pool.Valid() && pool.state == after && Behind(pool.P(mined.from), 1, pool.Next(mined.from))
  {
    hide TxPool.Valid, MustEvict, Resets, WithinLimits, RoomForAll, NoStaleRemote, Starts, Tx.Slots,
         Validate;
    pool := FullPool(before, mined, waiting);
    ghost var t, p := pool.Tab(), pool.P(mined.from);
    ghost var c := pool.Ctx().(state := after);
    OnePending(pool.pending, before, after, mined);
    ghost var m := pool.RunReset(ResetRequest(after, 100, FORKS, [reinjected]), map[]);
    FirstGoes(c, t, mined, waiting, reinjected);
    assert 0 in p && MustEvict(c, t, [reinjected], 0, p[0]);
  }

  /** Such a pool, states and transactions exist: account 7 ends with nothing pending and a
      virtual nonce that has already been used. */
  method StaleEvictionExample() returns (pool: TxPool)
    ensures pool.Valid() && pool.state.NonceOf(7) == 1 && pool.P(7) == map[] && pool.Next(7) == 0
  {
    hide TxPool.Valid, Tx.Slots;
    var mined := Tx(1, 7, 0, 1, 1, 0, 1, PLAIN);
    var waiting := Tx(2, 7, 1, 5, 1, 0, 1, PLAIN);
    var reinjected := Tx(3, 9, 0, 9, 1, 0, 1, PLAIN);
    OneSlot(mined);
    OneSlot(waiting);
    OneSlot(reinjected);
    var balances := map[7 := 100, 9 := 100];
    pool := MineAndReinject(ChainState(map[], balances), ChainState(map[7 := 1], balances), mined, waiting, reinjected);
  }
}
