/** The virtual nonces through a whole runReorg of core/tx_pool.go: reset, promotion,
    demotion, truncation and the final update, account by account. */
module PoolReorg {
  import opened Transactions
  import opened TxLookups
  import opened PoolBooks
  import opened PoolNonces
  import opened PoolMoves
  import opened PoolAdd
  import opened PoolSteps
  import opened PoolTruncate
  import opened TxPricedLists

  // ---------------------------------------------------------------------
  // Operations that leave the state alone

  ghost predicate AllKeepStep(pending: Accounts, nonces: map<Address, nat>, pending': Accounts,
                              nonces': map<Address, nat>, state: ChainState) {
    forall a: Address ::
      KeepsStep(ItemsOf(pending, a), NextIn(state, nonces, a), ItemsOf(pending', a), NextIn(state, nonces', a),
                state.NonceOf(a))
  }

  lemma KeepTrans(pending: Accounts, nonces: map<Address, nat>, pending': Accounts, nonces': map<Address, nat>,
                  pending'': Accounts, nonces'': map<Address, nat>, state: ChainState)
    requires AllKeepStep(pending, nonces, pending', nonces', state)
      && AllKeepStep(pending', nonces', pending'', nonces'', state)
    ensures AllKeepStep(pending, nonces, pending'', nonces'', state)
  {
    hide Aligned, Behind, ItemsOf, NextIn;
    forall a: Address
      ensures KeepsStep(ItemsOf(pending, a), NextIn(state, nonces, a), ItemsOf(pending'', a),
                        NextIn(state, nonces'', a), state.NonceOf(a))
    {
      assert KeepsStep(ItemsOf(pending, a), NextIn(state, nonces, a), ItemsOf(pending', a), NextIn(state, nonces', a),
                       state.NonceOf(a));
    }
  }

  /** Removals keep every account in step. */
  lemma CutsKeepStep(pending: Accounts, nonces: map<Address, nat>, pending': Accounts, nonces': map<Address, nat>,
                     state: ChainState, out: set<Tx>)
    requires AllCut(pending, state, nonces, pending', nonces', out)
    ensures AllKeepStep(pending, nonces, pending', nonces', state)
  {
    hide KeepsStep, ItemsOf, NextIn, Cut;
    forall a: Address
      ensures KeepsStep(ItemsOf(pending, a), NextIn(state, nonces, a), ItemsOf(pending', a), NextIn(state, nonces', a),
                        state.NonceOf(a))
    {
      assert CutBy(ItemsOf(pending, a), NextIn(state, nonces, a), ItemsOf(pending', a), NextIn(state, nonces', a),
                   NoncesOf(out, a));
      CutKeepsStep(ItemsOf(pending, a), NextIn(state, nonces, a), ItemsOf(pending', a), NextIn(state, nonces', a),
                   state.NonceOf(a));
    }
  }

  /** Promotion keeps every account in step. */
  lemma PromotionKeepsStep(pending: Accounts, nonces: map<Address, nat>, pending': Accounts, nonces': map<Address, nat>,
                           state: ChainState, maxGas: nat)
    requires AllPromote(pending, nonces, pending', nonces', state, maxGas)
    ensures AllKeepStep(pending, nonces, pending', nonces', state)
  {
    hide Aligned, Resetting, ItemsOf, NextIn;
    forall a: Address
      ensures KeepsStep(ItemsOf(pending, a), NextIn(state, nonces, a), ItemsOf(pending', a), NextIn(state, nonces', a),
                        state.NonceOf(a))
    {
      assert Promotes(ItemsOf(pending, a), NextIn(state, nonces, a), ItemsOf(pending', a), NextIn(state, nonces', a),
                      state.NonceOf(a), state.BalanceOf(a), maxGas);
    }
  }

  /** The virtual nonces of all accounts with pending transactions were set one past the last. */
  ghost predicate NoncesSet(pending: Accounts, nonces: map<Address, nat>, nonces': map<Address, nat>, state: ChainState,
                            todo: set<Address>) {
    forall a: Address ::
      if a in pending && a !in todo
      then var next' := NextIn(state, nonces', a);
           next' > 0 && next' - 1 in ItemsOf(pending, a) && forall n :: n in ItemsOf(pending, a) ==> n < next'
      else NextIn(state, nonces', a) == NextIn(state, nonces, a)
  }

  lemma NoncesSetStart(pending: Accounts, nonces: map<Address, nat>, state: ChainState)
    ensures NoncesSet(pending, nonces, nonces, state, pending.Keys)
  {
  }

  lemma NoncesSetStep(pending: Accounts, nonces: map<Address, nat>, nonces': map<Address, nat>,
                      nonces'': map<Address, nat>, state: ChainState, todo: set<Address>, a: Address, top: nat)
    requires NoncesSet(pending, nonces, nonces', state, todo) && a in todo && a in pending
    requires NextsElsewhere(a, state, nonces', nonces'') && NextIn(state, nonces'', a) == top + 1
    requires top in ItemsOf(pending, a) && forall n :: n in ItemsOf(pending, a) ==> n <= top
    ensures NoncesSet(pending, nonces, nonces'', state, todo - {a})
  {
  }

  lemma UpdateKeepsStep(pending: Accounts, nonces: map<Address, nat>, nonces': map<Address, nat>, state: ChainState)
    requires NoncesSet(pending, nonces, nonces', state, {}) && WellFormed(pending, true)
    ensures AllKeepStep(pending, nonces, pending, nonces', state)
  {
    forall a: Address
      ensures KeepsStep(ItemsOf(pending, a), NextIn(state, nonces, a), ItemsOf(pending, a), NextIn(state, nonces', a),
                        state.NonceOf(a))
    {
      if a in pending && Aligned(ItemsOf(pending, a), state.NonceOf(a), NextIn(state, nonces, a)) {
        NextIsEnd(ItemsOf(pending, a), state.NonceOf(a), NextIn(state, nonces, a), NextIn(state, nonces', a));
      }
    }
  }

  // ---------------------------------------------------------------------
  // Resets

  /** Before the reset the pending list is gapless from the old state nonce, and the nonce does
      not go back. */
  ghost predicate Starts(pending: Accounts, before: ChainState, state: ChainState, a: Address) {
    before.NonceOf(a) <= state.NonceOf(a) && exists hi: nat :: Gapless(ItemsOf(pending, a), before.NonceOf(a), hi)
  }

  lemma InStepStarts(pending: Accounts, nonces: map<Address, nat>, before: ChainState, state: ChainState, a: Address)
    requires before.NonceOf(a) <= state.NonceOf(a)
      && InStep(ItemsOf(pending, a), before.NonceOf(a), NextIn(before, nonces, a))
    ensures Starts(pending, before, state, a)
  {
    if Behind(ItemsOf(pending, a), before.NonceOf(a), NextIn(before, nonces, a)) {
      assert Gapless(ItemsOf(pending, a), before.NonceOf(a), before.NonceOf(a));
    }
  }

  /** A nonce of a pending transaction of `a` that the new state has left behind is among the
      evicted ones. */
  ghost predicate StaleEviction(evicted: set<Tx>, pending: Accounts, state: ChainState, a: Address) {
    exists n :: n in NoncesOf(evicted, a) && n in ItemsOf(pending, a) && n < state.NonceOf(a)
  }

  /** A pending transaction of `a` that the new state has left behind is not in the lookup table. */
  ghost predicate StaleGone(pending: Accounts, all: set<Tx>, state: ChainState, a: Address) {
    exists n :: n in ItemsOf(pending, a) && n < state.NonceOf(a) && ItemsOf(pending, a)[n] !in all
  }

  /** Outdated transactions leave the table by eviction only, so what is evicted can be read
      off the table. */
  lemma GoneIsEvicted(pending: Accounts, queue: Accounts, c: Context, t: Table, txs: seq<Tx>, b: Batch, t': Table,
                      a: Address)
    requires Books(pending, queue, t.All(), 0, map[]) && t.locals !! t.remotes && Leads(c, t, txs, false, b, t')
    ensures StaleEviction(Union(b.outs), pending, c.state, a) <==> StaleGone(pending, t'.All(), c.state, a)
  {
    hide Adds, AddsAll, Reached, Union, Books;
    var p, out := ItemsOf(pending, a), Union(b.outs);
    OwnPending(pending, queue, t.All(), a);
    if n :| n in NoncesOf(out, a) && n in p && n < c.state.NonceOf(a) {
      var e :| e in out && e.from == a && e.nonce == n;
      BatchReaches(c, txs, b, e);
      ReachedOutdated(c, t, SetOf(txs), |txs|, out, e, t');
      assert e == p[n];
    }
    if n :| n in p && n < c.state.NonceOf(a) && p[n] !in t'.All() {
      BatchReaches(c, txs, b, p[n]);
      ReachedOutdated(c, t, SetOf(txs), |txs|, out, p[n], t');
      assert n in NoncesOf(out, a);
    }
  }

  lemma OwnPending(pending: Accounts, queue: Accounts, all: set<Tx>, a: Address)
    requires Books(pending, queue, all, 0, map[])
    ensures forall n :: n in ItemsOf(pending, a) ==>
      var t := ItemsOf(pending, a)[n]; t.from == a && t.nonce == n && t in all
    ensures forall t :: t in all && t.from == a && t.nonce in ItemsOf(pending, a) ==> ItemsOf(pending, a)[t.nonce] == t
  {
    assert Account(a, ItemsOf(pending, a), ItemsOf(queue, a), map[], all);
  }

  /** After the reset and re-injection: each account is either ready for promotion and
      demotion, or lags behind because of a stale eviction. */
  ghost predicate AfterReset(pending0: Accounts, before: ChainState, evicted: set<Tx>, pending: Accounts,
                             nonces: map<Address, nat>, state: ChainState, maxGas: nat) {
    forall a: Address :: Starts(pending0, before, state, a) ==>
      if StaleEviction(evicted, pending0, state, a)
      then Lagging(ItemsOf(pending, a), state.NonceOf(a), NextIn(state, nonces, a))
      else Resetting(ItemsOf(pending, a), state.NonceOf(a), NextIn(state, nonces, a), state.BalanceOf(a), maxGas)
  }

  ghost predicate AfterDemotion(pending0: Accounts, before: ChainState, evicted: set<Tx>, pending: Accounts,
                                nonces: map<Address, nat>, state: ChainState) {
    forall a: Address :: Starts(pending0, before, state, a) ==>
      if StaleEviction(evicted, pending0, state, a)
      then Behind(ItemsOf(pending, a), state.NonceOf(a), NextIn(state, nonces, a))
      else Loose(ItemsOf(pending, a), state.NonceOf(a), NextIn(state, nonces, a))
  }

  lemma ResetSplits(pending0: Accounts, before: ChainState, state: ChainState, maxGas: nat,
                    evicted: set<Tx>, pending: Accounts, nonces: map<Address, nat>)
    requires AllCut(pending0, state, map[], pending, nonces, evicted)
    ensures AfterReset(pending0, before, evicted, pending, nonces, state, maxGas)
    ensures forall a: Address :: Starts(pending0, before, state, a) ==>
      if StaleEviction(evicted, pending0, state, a) then NextIn(state, nonces, a) < state.NonceOf(a)
        else NextIn(state, nonces, a) == state.NonceOf(a)
  {
    hide Resetting, CutBy, NoncesOf;
    forall a: Address | Starts(pending0, before, state, a)
      ensures if StaleEviction(evicted, pending0, state, a)
              then Lagging(ItemsOf(pending, a), state.NonceOf(a), NextIn(state, nonces, a))
              else
                && Resetting(ItemsOf(pending, a), state.NonceOf(a), NextIn(state, nonces, a), state.BalanceOf(a),
                             maxGas)
                   && NextIn(state, nonces, a) == state.NonceOf(a)
    {
      var hi: nat :| Gapless(ItemsOf(pending0, a), before.NonceOf(a), hi);
      ResetSplitsOne(ItemsOf(pending0, a), before.NonceOf(a), hi, state.NonceOf(a),
                     ItemsOf(pending, a), NextIn(state, nonces, a), NoncesOf(evicted, a), state.BalanceOf(a), maxGas);
    }
  }

  lemma ResetSplitsOne(p: Items, before: nat, hi: nat, sn: nat, p': Items, next': nat, out: set<nat>, balance: nat,
                       maxGas: nat)
    requires Gapless(p, before, hi) && before <= sn && CutBy(p, sn, p', next', out)
    ensures if exists n :: n in out && n in p && n < sn then Lagging(p', sn, next')
      else Resetting(p', sn, next', balance, maxGas) && next' == sn
  {
    hide Resetting;
    ResetThenCut(p, before, hi, sn, p', next', balance, maxGas);
    if next' < sn {
      assert next' in out && next' in p;
    }
  }

  lemma PromotionKeeps(pending0: Accounts, before: ChainState, evicted: set<Tx>, pending: Accounts,
                       nonces: map<Address, nat>,
                       pending': Accounts, nonces': map<Address, nat>, state: ChainState, maxGas: nat)
    requires AfterReset(pending0, before, evicted, pending, nonces, state, maxGas)
    requires AllPromote(pending, nonces, pending', nonces', state, maxGas)
    ensures AfterReset(pending0, before, evicted, pending', nonces', state, maxGas)
  {
    hide Lagging, Resetting, Aligned, StaleEviction, Starts;
    forall a: Address | Starts(pending0, before, state, a)
      ensures if StaleEviction(evicted, pending0, state, a)
              then Lagging(ItemsOf(pending', a), state.NonceOf(a), NextIn(state, nonces', a))
              else Resetting(ItemsOf(pending', a), state.NonceOf(a), NextIn(state, nonces', a), state.BalanceOf(a),
                             maxGas)
    {
      assert Promotes(ItemsOf(pending, a), NextIn(state, nonces, a), ItemsOf(pending', a), NextIn(state, nonces', a),
                      state.NonceOf(a), state.BalanceOf(a), maxGas);
    }
  }

  lemma DemotionSettlesAll(pending0: Accounts, before: ChainState, evicted: set<Tx>, pending: Accounts,
                           nonces: map<Address, nat>, pending': Accounts, state: ChainState, maxGas: nat)
    requires AfterReset(pending0, before, evicted, pending, nonces, state, maxGas)
    requires Demoting(pending, pending', nonces, {}, state, maxGas)
    ensures AfterDemotion(pending0, before, evicted, pending', nonces, state)
  {
    hide Resetting, Loose, StaleEviction, Starts;
    forall a: Address | Starts(pending0, before, state, a)
      ensures if StaleEviction(evicted, pending0, state, a)
              then Behind(ItemsOf(pending', a), state.NonceOf(a), NextIn(state, nonces, a))
              else Loose(ItemsOf(pending', a), state.NonceOf(a), NextIn(state, nonces, a))
    {
      assert Demotes(ItemsOf(pending, a), NextIn(state, nonces, a), ItemsOf(pending', a), state.NonceOf(a),
                     state.BalanceOf(a), maxGas);
    }
  }

  lemma TruncationKeeps(pending0: Accounts, before: ChainState, evicted: set<Tx>, pending: Accounts,
                        nonces: map<Address, nat>,
                        pending': Accounts, nonces': map<Address, nat>, state: ChainState, out: set<Tx>)
    requires AfterDemotion(pending0, before, evicted, pending, nonces, state)
    requires AllCut(pending, state, nonces, pending', nonces', out)
    ensures AfterDemotion(pending0, before, evicted, pending', nonces', state)
  {
    hide Loose, StaleEviction, Starts;
    forall a: Address | Starts(pending0, before, state, a)
      ensures if StaleEviction(evicted, pending0, state, a)
              then Behind(ItemsOf(pending', a), state.NonceOf(a), NextIn(state, nonces', a))
              else Loose(ItemsOf(pending', a), state.NonceOf(a), NextIn(state, nonces', a))
    {
      var p, p' := ItemsOf(pending, a), ItemsOf(pending', a);
      assert CutBy(p, NextIn(state, nonces, a), p', NextIn(state, nonces', a), NoncesOf(out, a));
      if StaleEviction(evicted, pending0, state, a) {
        assert p'.Keys == {};
      } else {
        CutKeepsLoose(p, NextIn(state, nonces, a), p', NextIn(state, nonces', a), state.NonceOf(a));
      }
    }
  }

  /** The outcome of a reset for one account: behind if a stale pending transaction of it is
      missing from `all`, the lookup table after the re-injection, and aligned otherwise. */
  ghost predicate Outcome(pending0: Accounts, before: ChainState, all: set<Tx>, pending: Accounts,
                          nonces: map<Address, nat>, state: ChainState, a: Address) {
    Starts(pending0, before, state, a) ==>
      if StaleGone(pending0, all, state, a)
      then Behind(ItemsOf(pending, a), state.NonceOf(a), NextIn(state, nonces, a))
      else Aligned(ItemsOf(pending, a), state.NonceOf(a), NextIn(state, nonces, a))
  }

  /** After a reset in which the nonce of the account does not go back, the account is aligned
      if and only if the re-injection left all its stale pending transactions in the table. */
  lemma ResetResult(pending0: Accounts, queue0: Accounts, before: ChainState, c: Context, t: Table, txs: seq<Tx>,
                    b: Batch, t': Table,
                    pending: Accounts, nonces: map<Address, nat>, nonces': map<Address, nat>, a: Address)
    requires Books(pending0, queue0, t.All(), 0, map[]) && t.locals !! t.remotes && Leads(c, t, txs, false, b, t')
    requires AfterDemotion(pending0, before, Union(b.outs), pending, nonces, c.state)
    requires NoncesSet(pending, nonces, nonces', c.state, {}) && WellFormed(pending, true)
    ensures Outcome(pending0, before, t'.All(), pending, nonces', c.state, a)
  {
    hide StaleEviction, StaleGone, Loose, Books, Leads, Starts, Union;
    GoneIsEvicted(pending0, queue0, c, t, txs, b, t', a);
    if Starts(pending0, before, c.state, a) && !StaleEviction(Union(b.outs), pending0, c.state, a) {
      SettledIsAligned(ItemsOf(pending, a), c.state.NonceOf(a), NextIn(c.state, nonces, a),
                       NextIn(c.state, nonces', a));
    }
  }

  // ---------------------------------------------------------------------
  // What a caller can tell beforehand

  /** No pending transaction of `a` is outdated for the new state and remote. */
  ghost predicate NoStaleRemote(pending: Accounts, t: Table, state: ChainState, a: Address) {
    forall n :: n in ItemsOf(pending, a) && n < state.NonceOf(a) ==> ItemsOf(pending, a)[n] !in t.remotes
  }

  /** With room for the re-injection, or without a stale remote transaction pending, nothing
      stale goes missing. */
  lemma NothingStaleGoes(pending: Accounts, queue: Accounts, c: Context, t: Table, txs: seq<Tx>, t': Table, a: Address)
    requires Books(pending, queue, t.All(), 0, map[]) && t.locals !! t.remotes && Reinjects(c, t, txs, t')
    requires RoomForAll(c, t, txs) || NoStaleRemote(pending, t, c.state, a)
    ensures !StaleGone(pending, t'.All(), c.state, a)
  {
    hide Adds, AddsAll, Reached, Union, Books, RoomForAll;
    var b :| Leads(c, t, txs, false, b, t');
    var p := ItemsOf(pending, a);
    OwnPending(pending, queue, t.All(), a);
    if RoomForAll(c, t, txs) { RoomMeansNoEviction(c, txs, b); }
    forall n | n in p && n < c.state.NonceOf(a) ensures p[n] in t'.All() {
      BatchReaches(c, txs, b, p[n]);
      ReachedOutdated(c, t, SetOf(txs), |txs|, Union(b.outs), p[n], t');
    }
  }

  /** If the pool is full and a stale pending transaction of `a` is strictly the cheapest remote
      one, it goes missing. */
  lemma CheapestStaleGoes(pending: Accounts, c: Context, t: Table, txs: seq<Tx>, t': Table, a: Address, n: nat, i: nat)
    requires t.locals !! t.remotes && Reinjects(c, t, txs, t')
    requires n in ItemsOf(pending, a) && n < c.state.NonceOf(a) && ItemsOf(pending, a)[n].from == a
      && ItemsOf(pending, a)[n].nonce == n
    requires MustEvict(c, t, txs, i, ItemsOf(pending, a)[n])
    ensures StaleGone(pending, t'.All(), c.state, a)
  {
    hide Adds, AddsAll, MustEvict;
    var b :| Leads(c, t, txs, false, b, t');
    CheapestMustGo(c, txs, b, i, ItemsOf(pending, a)[n]);
  }

  /** What goes missing was remote, and nothing that stays is cheaper. */
  lemma OnlyTheCheapestGo(pending: Accounts, queue: Accounts, c: Context, t: Table, txs: seq<Tx>, t': Table, a: Address,
                          n: nat, r: Tx)
    requires Books(pending, queue, t.All(), 0, map[]) && t.locals !! t.remotes && Reinjects(c, t, txs, t')
    requires n in ItemsOf(pending, a) && n < c.state.NonceOf(a) && ItemsOf(pending, a)[n] !in t'.All()
    requires r in t'.remotes && r !in SetOf(txs)
    ensures ItemsOf(pending, a)[n] in t.remotes && r in t.remotes && !PriceLess(r, ItemsOf(pending, a)[n])
  {
    hide Adds, AddsAll, Reached, Union, Books;
    var b :| Leads(c, t, txs, false, b, t');
    var x := ItemsOf(pending, a)[n];
    OwnPending(pending, queue, t.All(), a);
    BatchReaches(c, txs, b, x);
    ReachedOutdated(c, t, SetOf(txs), |txs|, Union(b.outs), x, t');
    EvictedAreCheapest(c, txs, b, r, x);
  }

  lemma KeepRefl(pending: Accounts, nonces: map<Address, nat>, state: ChainState)
    ensures AllKeepStep(pending, nonces, pending, nonces, state)
  {
  }

  lemma LeadsReinjects(c: Context, t: Table, txs: seq<Tx>, b: Batch, t': Table)
    requires Leads(c, t, txs, false, b, t')
    ensures Reinjects(c, t, txs, t')
  {
  }

  /** What can be told beforehand about every account. */
  lemma ForeseenAll(pending0: Accounts, queue0: Accounts, before: ChainState, c: Context, t: Table, txs: seq<Tx>,
                    mid: Table, pending: Accounts, nonces: map<Address, nat>)
    requires Books(pending0, queue0, t.All(), 0, map[]) && t.locals !! t.remotes && Reinjects(c, t, txs, mid)
    requires forall a: Address :: Outcome(pending0, before, mid.All(), pending, nonces, c.state, a)
    ensures forall a: Address ::
      (Starts(pending0, before, c.state, a)
       && (RoomForAll(c, t, txs) || NoStaleRemote(pending0, t, c.state, a))) ==>
        Aligned(ItemsOf(pending, a), c.state.NonceOf(a), NextIn(c.state, nonces, a))
    ensures forall a: Address, n, i: nat ::
      (Starts(pending0, before, c.state, a) && n in ItemsOf(pending0, a) && n < c.state.NonceOf(a)
       && MustEvict(c, t, txs, i, ItemsOf(pending0, a)[n])) ==>
        Behind(ItemsOf(pending, a), c.state.NonceOf(a), NextIn(c.state, nonces, a))
  {
    hide Books, Reinjects, RoomForAll, NoStaleRemote, MustEvict, Starts, StaleGone, Aligned, Behind, NextIn;
    forall a: Address | Starts(pending0, before, c.state, a)
      && (RoomForAll(c, t, txs) || NoStaleRemote(pending0, t, c.state, a))
      ensures Aligned(ItemsOf(pending, a), c.state.NonceOf(a), NextIn(c.state, nonces, a))
    {
      NothingStaleGoes(pending0, queue0, c, t, txs, mid, a);
      assert Outcome(pending0, before, mid.All(), pending, nonces, c.state, a);
    }
    forall a: Address, n, i: nat | Starts(pending0, before, c.state, a) && n in ItemsOf(pending0, a)
      && n < c.state.NonceOf(a) &&
      MustEvict(c, t, txs, i, ItemsOf(pending0, a)[n])
      ensures Behind(ItemsOf(pending, a), c.state.NonceOf(a), NextIn(c.state, nonces, a))
    {
      OwnPending(pending0, queue0, t.All(), a);
      CheapestStaleGoes(pending0, c, t, txs, mid, a, n, i);
      assert Outcome(pending0, before, mid.All(), pending, nonces, c.state, a);
    }
  }

  lemma DemotedStarts(p: Items, q: Items, p': Items, q': Items, sn: nat, balance: nat, maxGas: nat)
    requires AccountDemoted(p, q, p', q', sn, balance, maxGas)
    ensures p' != map[] ==> sn in p' && forall n :: n in p' ==> sn <= n
  {
  }

  lemma AnchoredOne(p: Items, p': Items, k: nat, sn: nat, next: nat)
    requires p != map[] ==> sn in p && forall n :: n in p ==> sn <= n
    requires LowestOf(p', p, k)
    requires p' != map[] ==> next > 0 && next - 1 in p' && forall n :: n in p' ==> n < next
    ensures Anchored(p', sn, next)
  {
    if p' != map[] {
      var n :| n in p';
      assert n in p;
    }
  }

  /** Whatever its nonce did, an account ends a reset with its pending list starting at the
      state nonce and the virtual nonce one past its last one. */
  lemma AnchoredAfter(s1: Standing, s2: Standing, state: ChainState, maxGas: nat, pending: Accounts,
                      nonces: map<Address, nat>, nonces': map<Address, nat>)
    requires AllDemoted(s1, s2, state, maxGas, {}) && OnlyTops(s2.pending, pending)
    requires NoncesSet(pending, nonces, nonces', state, {})
    ensures forall a: Address :: Anchored(ItemsOf(pending, a), state.NonceOf(a), NextIn(state, nonces', a))
  {
    hide NextIn, LowestOf, AccountDemoted, Anchored;
    forall a: Address ensures Anchored(ItemsOf(pending, a), state.NonceOf(a), NextIn(state, nonces', a)) {
      assert DemotedIn(s1, s2, state, maxGas, a);
      DemotedStarts(ItemsOf(s1.pending, a), ItemsOf(s1.queue, a), ItemsOf(s2.pending, a), ItemsOf(s2.queue, a),
                    state.NonceOf(a), state.BalanceOf(a), maxGas);
      AnchoredOne(ItemsOf(s2.pending, a), ItemsOf(pending, a), Len(pending, a), state.NonceOf(a),
                  NextIn(state, nonces', a));
    }
  }
}
