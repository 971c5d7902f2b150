/** Promotion and demotion in core/tx_pool.go, account by account, in terms of the contents
    of the lists alone. */
module PoolSteps {
  import opened Transactions
  import opened TxLookups
  import opened PoolBooks
  import opened PoolNonces
  import opened PoolMoves
  import TxLists

  /** The transactions that are neither outdated nor unpayable. */
  function Payables(m: Items, sn: nat, balance: nat, maxGas: nat): Items {
    map n | n in m && sn <= n && !TooExpensive(m[n], balance, maxGas) :: m[n]
  }

  /** Those with no unpayable one before them. */
  function PayableRun(m: Items, sn: nat, balance: nat, maxGas: nat): Items {
    map n | n in m && sn <= n && (forall k :: k in m && sn <= k <= n ==> !TooExpensive(m[k], balance, maxGas)) :: m[n]
  }

  lemma ExecutableIs(l: List, sn: nat, balance: nat, maxGas: nat)
    requires l.Valid() && !l.strict
    ensures Executable(l, sn, balance, maxGas) == Payables(l.items, sn, balance, maxGas)
  {
    var l1 := l.(items := AtLeast(l.items, sn));
    if l1.costcap <= balance && l1.gascap <= maxGas { TxLists.ShortFiltered(l1, balance, maxGas); }
  }

  lemma StrictFilterIs(l: List, sn: nat, balance: nat, maxGas: nat)
    requires l.Valid() && l.strict
    ensures Filtered(l.(items := AtLeast(l.items, sn)), balance, maxGas).items ==
      PayableRun(l.items, sn, balance, maxGas)
  {
    hide Filtered, PayableRun;
    var l1 := l.(items := AtLeast(l.items, sn));
    var f, run := Filtered(l1, balance, maxGas).items, PayableRun(l.items, sn, balance, maxGas);
    forall n ensures (n in f <==> n in run)
      && (n in f ==> f[n] == run[n]) { StrictFilterAt(l, sn, balance, maxGas, n); }
    assert f == run;
  }

  lemma StrictFilterAt(l: List, sn: nat, balance: nat, maxGas: nat, n: nat)
    requires l.Valid() && l.strict
    ensures var f, run := Filtered(l.(items := AtLeast(l.items, sn)), balance, maxGas).items,
      PayableRun(l.items, sn, balance, maxGas);
      (n in f <==> n in run) && (n in f ==> f[n] == run[n])
  {
    hide Filtered, Unpayable, Invalidated, TooExpensive;
    var l1 := l.(items := AtLeast(l.items, sn));
    var drops, rest := Unpayable(l1, balance, maxGas), Invalidated(l1, balance, maxGas);
    var f := Filtered(l1, balance, maxGas).items;
    TxLists.FilterPartitions(l1, balance, maxGas);
    InvalidatedPayable(l1, balance, maxGas);
    if n in f {
      assert n in f.Keys;
      forall k | k in l.items && sn <= k <= n ensures !TooExpensive(l.items[k], balance, maxGas) {
        assert k in drops <==> TooExpensive(l1.items[k], balance, maxGas);
        assert k in drops && k < n ==> n in rest;
      }
    } else if n in l1.items {
      assert n in drops || n in rest by { assert n in f.Keys + drops.Keys + rest.Keys; }
      var d :| d in drops && d <= n;
      assert d in l.items && sn <= d && TooExpensive(l.items[d], balance, maxGas);
    }
  }

  /** Promotion of one account: the ready run of its payable queue goes to pending, the rest
      stays queued, up to the cap for remote accounts. */
  ghost predicate AccountPromoted(p: Items, q: Items, next: nat, p': Items, q': Items, next': nat,
                                  sn: nat, balance: nat, maxGas: nat, capped: bool, cap: nat) {
    var e := Payables(q, sn, balance, maxGas);
    var r := ReadyItems(e, next);
    && p' == p + r && NextAfter(r, next, next')
    && if capped then LowestOf(q', e - r.Keys, cap) else q' == e - r.Keys
  }

  /** Demotion of one account: pending keeps its payable run unless that does not start at the
      state nonce; what else is payable goes to the queue. */
  ghost predicate AccountDemoted(p: Items, q: Items, p': Items, q': Items, sn: nat, balance: nat, maxGas: nat) {
    var run := PayableRun(p, sn, balance, maxGas);
    && p' == (if run != map[] && sn !in run then map[] else run)
    && q' == q + (Payables(p, sn, balance, maxGas) - p'.Keys)
  }

  datatype Standing = Standing(pending: Accounts, queue: Accounts, nonces: map<Address, nat>)

  ghost predicate PromotedIn(l: Standing, l': Standing, state: ChainState, maxGas: nat, locals: set<Address>, cap: nat,
                             a: Address) {
    AccountPromoted(ItemsOf(l.pending, a), ItemsOf(l.queue, a), NextIn(state, l.nonces, a),
                    ItemsOf(l'.pending, a), ItemsOf(l'.queue, a), NextIn(state, l'.nonces, a),
                    state.NonceOf(a), state.BalanceOf(a), maxGas, a !in locals, cap)
  }

  ghost predicate SameIn(l: Standing, l': Standing, state: ChainState, a: Address) {
    && ItemsOf(l'.pending, a) == ItemsOf(l.pending, a) && ItemsOf(l'.queue, a) == ItemsOf(l.queue, a)
    && NextIn(state, l'.nonces, a) == NextIn(state, l.nonces, a)
  }

  /** Exactly the given accounts have been promoted. */
  ghost predicate AllPromoted(l: Standing, l': Standing, state: ChainState, maxGas: nat, locals: set<Address>, cap: nat,
                              accounts: set<Address>) {
    forall a: Address :: if a in accounts then PromotedIn(l, l', state, maxGas, locals, cap, a)
      else SameIn(l, l', state, a)
  }

  ghost predicate DemotedIn(l: Standing, l': Standing, state: ChainState, maxGas: nat, a: Address) {
    && AccountDemoted(ItemsOf(l.pending, a), ItemsOf(l.queue, a), ItemsOf(l'.pending, a), ItemsOf(l'.queue, a),
                      state.NonceOf(a), state.BalanceOf(a), maxGas)
  }

  /** All accounts outside `todo` have been demoted. */
  ghost predicate AllDemoted(l: Standing, l': Standing, state: ChainState, maxGas: nat, todo: set<Address>) {
    forall a: Address ::
      if a in todo then ItemsOf(l'.pending, a) == ItemsOf(l.pending, a) && ItemsOf(l'.queue, a) == ItemsOf(l.queue, a)
      else DemotedIn(l, l', state, maxGas, a)
  }

  ghost predicate ChangedOnly(a: Address, l: Standing, l': Standing, state: ChainState) {
    SameElsewhere(a, l.pending, l'.pending) && SameElsewhere(a, l.queue, l'.queue)
      && NextsElsewhere(a, state, l.nonces, l'.nonces)
  }

  /** An account without a queue is promoted by doing nothing. */
  lemma EmptyQueuePromoted(l: Standing, state: ChainState, maxGas: nat, locals: set<Address>, cap: nat, a: Address)
    requires ItemsOf(l.queue, a) == map[]
    ensures PromotedIn(l, l, state, maxGas, locals, cap, a)
  {
    var e := Payables(map[], state.NonceOf(a), state.BalanceOf(a), maxGas);
    assert e == map[] && ReadyItems(e, NextIn(state, l.nonces, a)) == map[];
    assert ItemsOf(l.pending, a) + map[] == ItemsOf(l.pending, a);
  }

  lemma PromoteNext(l0: Standing, l: Standing, l': Standing, state: ChainState, maxGas: nat, locals: set<Address>,
                    cap: nat, done: set<Address>, a: Address)
    requires AllPromoted(l0, l, state, maxGas, locals, cap, done) && a !in done
    requires PromotedIn(l, l', state, maxGas, locals, cap, a) && ChangedOnly(a, l, l', state)
    ensures AllPromoted(l0, l', state, maxGas, locals, cap, done + {a})
  {
    hide AccountPromoted, ItemsOf, NextIn;
    assert SameIn(l0, l, state, a);
    forall b: Address ensures if b in done + {a} then PromotedIn(l0, l', state, maxGas, locals, cap, b)
      else SameIn(l0, l', state, b) {
      if b != a { assert SameIn(l, l', state, b); }
    }
  }

  lemma DemoteNext(l0: Standing, l: Standing, l': Standing, state: ChainState, maxGas: nat, todo: set<Address>,
                   a: Address)
    requires AllDemoted(l0, l, state, maxGas, todo) && a in todo
    requires DemotedIn(l, l', state, maxGas, a) && SameElsewhere(a, l.pending, l'.pending)
      && SameElsewhere(a, l.queue, l'.queue)
    ensures AllDemoted(l0, l', state, maxGas, todo - {a})
  {
    hide AccountDemoted, ItemsOf;
    forall b: Address
      ensures if b in todo - {a} then ItemsOf(l'.pending, b) == ItemsOf(l0.pending, b)
        && ItemsOf(l'.queue, b) == ItemsOf(l0.queue, b)
              else DemotedIn(l0, l', state, maxGas, b)
    {
      if b != a { assert ItemsOf(l.pending, b) == ItemsOf(l'.pending, b) && ItemsOf(l.queue, b) == ItemsOf(l'.queue, b);
                 }
    }
  }

  /** Before demotion starts, the accounts without pending transactions are done. */
  lemma DemoteStart(l: Standing, state: ChainState, maxGas: nat)
    ensures AllDemoted(l, l, state, maxGas, l.pending.Keys)
  {
    forall a: Address | a !in l.pending.Keys ensures DemotedIn(l, l, state, maxGas, a) {
      var none: Items := map[];
      assert PayableRun(none, state.NonceOf(a), state.BalanceOf(a), maxGas) == none;
      assert Payables(none, state.NonceOf(a), state.BalanceOf(a), maxGas) == none;
      assert ItemsOf(l.queue, a) + (none - none.Keys) == ItemsOf(l.queue, a);
    }
  }

  /** The list operations of demoteUnexecutables do just that. */
  lemma DemotionIs(l: List, q: Items, sn: nat, balance: nat, maxGas: nat)
    requires l.Valid() && l.strict
    ensures var s := Demotion(l, sn, balance, maxGas);
      AccountDemoted(l.items, q, s.left.items, q + s.ready, sn, balance, maxGas)
  {
    hide Demotion, Filtered, PayableRun, Payables, Invalidated;
    var run, pay := PayableRun(l.items, sn, balance, maxGas), Payables(l.items, sn, balance, maxGas);
    var rest := Invalidated(l.(items := AtLeast(l.items, sn)), balance, maxGas);
    DemotionFields(l, sn, balance, maxGas);
    PayableParts(l, sn, balance, maxGas);
    assert rest == pay - run.Keys;
    assert rest + run == pay;
    assert pay - {} == pay;
  }

  lemma DemotionFields(l: List, sn: nat, balance: nat, maxGas: nat)
    requires l.Valid() && l.strict
    ensures var s, run := Demotion(l, sn, balance, maxGas), PayableRun(l.items, sn, balance, maxGas);
      var rest := Invalidated(l.(items := AtLeast(l.items, sn)), balance, maxGas);
      var gap := run != map[] && sn !in run;
      s.left.items == (if gap then map[] else run) && s.ready == (if gap then rest + run else rest)
  {
    hide Filtered, PayableRun, Unpayable, Invalidated, ValuesOf, Below;
    StrictFilterIs(l, sn, balance, maxGas);
  }

  /** The payable transactions are the payable run and what is invalidated. */
  lemma PayableParts(l: List, sn: nat, balance: nat, maxGas: nat)
    requires l.Valid() && l.strict
    ensures var run, pay := PayableRun(l.items, sn, balance, maxGas), Payables(l.items, sn, balance, maxGas);
      var rest := Invalidated(l.(items := AtLeast(l.items, sn)), balance, maxGas);
      && (forall n :: n in pay <==> n in run || n in rest) && (forall n :: n in run ==> n !in rest && run[n] == pay[n])
      && (forall n :: n in rest ==> rest[n] == pay[n])
  {
    hide Filtered, Invalidated, PayableRun;
    var l1 := l.(items := AtLeast(l.items, sn));
    StrictFilterIs(l, sn, balance, maxGas);
    TxLists.FilterPartitions(l1, balance, maxGas);
    InvalidatedPayable(l1, balance, maxGas);
    var run, rest, drops := PayableRun(l.items, sn, balance, maxGas), Invalidated(l1, balance, maxGas),
      Unpayable(l1, balance, maxGas);
    forall n ensures n in l1.items <==>
      n in run || n in drops || n in rest { assert n in l1.items.Keys <==> n in run.Keys + drops.Keys + rest.Keys; }
  }

  lemma InvalidatedPayable(l: List, balance: nat, maxGas: nat)
    ensures forall n :: n in Unpayable(l, balance, maxGas) <==>
      n in l.items && TooExpensive(l.items[n], balance, maxGas)
    ensures forall n :: n in Invalidated(l, balance, maxGas) ==>
      n in l.items && Invalidated(l, balance, maxGas)[n] == l.items[n]
    ensures forall n :: n in Invalidated(l, balance, maxGas) ==> exists d :: d in Unpayable(l, balance, maxGas) && d < n
    ensures l.strict ==>
      forall n, d ::
        n in l.items && n !in Unpayable(l, balance, maxGas) && d in Unpayable(l, balance, maxGas) && d < n ==>
          n in Invalidated(l, balance, maxGas)
  {
  }

  lemma NonePromoted(l: Standing, state: ChainState, maxGas: nat, locals: set<Address>, cap: nat)
    ensures AllPromoted(l, l, state, maxGas, locals, cap, {}) && forall a: Address :: SameIn(l, l, state, a)
  {
  }

  lemma SameOutside(l0: Standing, l: Standing, l': Standing, state: ChainState, accounts: seq<Address>, i: nat)
    requires i < |accounts| && (forall a: Address :: a !in accounts[..i] ==> SameIn(l0, l, state, a))
    requires SameElsewhere(accounts[i], l.pending, l'.pending) && SameElsewhere(accounts[i], l.queue, l'.queue)
    requires NextsElsewhere(accounts[i], state, l.nonces, l'.nonces)
    ensures (forall a: Address :: a !in accounts[..i + 1] ==> SameIn(l0, l', state, a))
      && ChangedOnly(accounts[i], l, l', state)
    ensures accounts[..|accounts|] == accounts
  {
    hide ItemsOf, NextIn;
    assert accounts[..i + 1] == accounts[..i] + [accounts[i]];
    forall a: Address | a !in accounts[..i + 1] ensures SameIn(l0, l', state, a) {
      assert a != accounts[i] && SameIn(l0, l, state, a);
    }
  }

  /** promoteExecutables for one account does just that. */
  lemma PromotedQueue(l: Standing, l': Standing, state: ChainState, maxGas: nat, locals: set<Address>, cap: nat,
                      a: Address)
    requires a in l.queue && l.queue[a].Valid() && !l.queue[a].strict
    requires var e := Executable(l.queue[a], state.NonceOf(a), state.BalanceOf(a), maxGas);
      var r := ReadyItems(e, NextIn(state, l.nonces, a));
      && ItemsOf(l'.pending, a) == ItemsOf(l.pending, a) + r
         && NextAfter(r, NextIn(state, l.nonces, a), NextIn(state, l'.nonces, a))
      && (if a in locals then ItemsOf(l'.queue, a) == e - r.Keys else LowestOf(ItemsOf(l'.queue, a), e - r.Keys, cap))
    ensures PromotedIn(l, l', state, maxGas, locals, cap, a)
  {
    hide Executable, Payables, ReadyItems, NextAfter, LowestOf, NextIn;
    ExecutableIs(l.queue[a], state.NonceOf(a), state.BalanceOf(a), maxGas);
  }
}
