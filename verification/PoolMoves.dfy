/** What the operations of core/tx_pool.go do to the books, the price heap and the
    virtual nonces, stated and proved on values. */
module PoolMoves {
  import opened Transactions
  import opened TxLookups
  import opened TxPricedLists
  import opened PoolBooks
  import opened PoolNonces
  import TxLists
  import opened PoolTruncate
  import opened PoolAdd

  /** One remote transaction leaves: the heap keeps an entry for it, counted as stale. */
  lemma TracksRemoval(heap: seq<Tx>, remotes: set<Tx>, stales: int, t: Tx)
    requires Tracks(heap, [], remotes, stales)
    ensures Tracks(heap, [], remotes - {t}, stales + 1)
  {
    if t !in remotes { assert remotes - {t} == remotes; }
  }

  /** A taken transaction leaves for good. */
  lemma TracksDrop(heap: seq<Tx>, taken: seq<Tx>, remotes: set<Tx>, stales: int)
    requires taken != [] && Tracks(heap, taken, remotes, stales)
    ensures Tracks(heap, taken[1..], remotes - {taken[0]}, stales)
  {
    if taken[0] !in remotes { assert remotes - {taken[0]} == remotes; }
  }

  /** A new transaction joins the remotes and the heap, or the locals only. */
  lemma TracksAddition(heap: seq<Tx>, remotes: set<Tx>, stales: int, t: Tx, local: bool, heap': seq<Tx>)
    requires Tracks(heap, [], remotes, stales) && t !in remotes
    requires multiset(heap') == multiset(heap) + if local then multiset{} else multiset{t}
    ensures Tracks(heap', [], remotes + (if local then {} else {t}), stales)
  {
    assert |multiset(heap')| == |heap'|;
    forall u | u in remotes || (u == t && !local) ensures u in heap' {
      assert u in multiset(heap');
    }
    if local { assert remotes + {} == remotes; }
  }

  /** The first `i` taken transactions have been removed. */
  ghost predicate Taking(drop: seq<Tx>, i: nat, done: set<Tx>, locals: set<Tx>, remotes: set<Tx>,
                         locals': set<Tx>, remotes': set<Tx>, heap: seq<Tx>, stales: int) {
    && i <= |drop| && Tracks(heap, drop[i..], remotes', stales)
    && (forall t :: t in drop ==> t in remotes && t !in locals)
    && done == SetOf(drop[..i]) && locals' == locals && remotes' == remotes - done
  }

  lemma TakingStart(drop: seq<Tx>, locals: set<Tx>, remotes: set<Tx>, heap: seq<Tx>, stales: int)
    requires Tracks(heap, drop, remotes, stales) && locals !! remotes && forall t :: t in drop ==> t in remotes
    ensures Taking(drop, 0, {}, locals, remotes, locals, remotes, heap, stales)
  {
    assert drop[0..] == drop;
  }

  lemma TakingStep(drop: seq<Tx>, i: nat, done: set<Tx>, locals: set<Tx>, remotes: set<Tx>,
                   locals': set<Tx>, remotes': set<Tx>, heap: seq<Tx>, stales: int, gone: set<Tx>)
    requires Taking(drop, i, done, locals, remotes, locals', remotes', heap, stales) && i < |drop|
    requires gone == if drop[i] in locals' + remotes' then {drop[i]} else {}
    ensures Taking(drop, i + 1, done + gone, locals, remotes, locals' - {drop[i]}, remotes' - {drop[i]}, heap, stales)
  {
    hide Tracks, SetOf;
    TracksDrop(heap, drop[i..], remotes', stales);
    assert drop[i..][1..] == drop[i + 1..];
    SetOfPlus(drop, i);
  }

  lemma SetOfPlus(s: seq<Tx>, i: nat)
    requires i < |s|
    ensures SetOf(s[..i + 1]) == SetOf(s[..i]) + {s[i]}
  {
    assert s[..i + 1] == s[..i] + [s[i]];
  }

  lemma TakingDone(drop: seq<Tx>, done: set<Tx>, locals: set<Tx>, remotes: set<Tx>,
                   locals': set<Tx>, remotes': set<Tx>, heap: seq<Tx>, stales: int)
    requires Taking(drop, |drop|, done, locals, remotes, locals', remotes', heap, stales)
    ensures done == SetOf(drop) && locals' == locals && remotes' == remotes - SetOf(drop)
      && Tracks(heap, [], remotes', stales)
  {
    assert drop[..|drop|] == drop;
  }

  // ---------------------------------------------------------------------
  // Cuts over all accounts

  function NoncesOf(txs: set<Tx>, a: Address): set<nat> {
    set t | t in txs && t.from == a :: t.nonce
  }

  /** Every account went through a cut explained by the transactions `out`. */
  ghost predicate AllCut(pending: Accounts, fb: ChainState, nonces: map<Address, nat>,
                         pending': Accounts, nonces': map<Address, nat>, out: set<Tx>) {
    forall a: Address ::
      CutBy(ItemsOf(pending, a), NextIn(fb, nonces, a), ItemsOf(pending', a), NextIn(fb, nonces', a), NoncesOf(out, a))
  }

  lemma AllCutRefl(pending: Accounts, fb: ChainState, nonces: map<Address, nat>)
    ensures AllCut(pending, fb, nonces, pending, nonces, {})
  {
  }

  lemma AllCutTrans(pending: Accounts, fb: ChainState, nonces: map<Address, nat>,
                    pending': Accounts, nonces': map<Address, nat>, out: set<Tx>,
                    pending'': Accounts, nonces'': map<Address, nat>, out': set<Tx>)
    requires AllCut(pending, fb, nonces, pending', nonces', out)
      && AllCut(pending', fb, nonces', pending'', nonces'', out')
    ensures AllCut(pending, fb, nonces, pending'', nonces'', out + out')
  {
    hide CutBy;
    forall a: Address
      ensures CutBy(ItemsOf(pending, a), NextIn(fb, nonces, a), ItemsOf(pending'', a), NextIn(fb, nonces'', a),
                    NoncesOf(out + out', a))
    {
      assert NoncesOf(out + out', a) == NoncesOf(out, a) + NoncesOf(out', a);
      CutByTrans(ItemsOf(pending, a), NextIn(fb, nonces, a), ItemsOf(pending', a), NextIn(fb, nonces', a),
                 NoncesOf(out, a),
                 ItemsOf(pending'', a), NextIn(fb, nonces'', a), NoncesOf(out', a));
    }
  }

  /** A removal is a cut, explained by the removed transaction. */
  lemma RemovalCuts(pending: Accounts, queue: Accounts, all: set<Tx>, fb: ChainState, nonces: map<Address, nat>, tx: Tx,
                    pending': Accounts, queue': Accounts, nonces': map<Address, nat>)
    requires Books(pending, queue, all, tx.from, map[])
    requires Removal(tx, tx in all, ItemsOf(pending, tx.from), ItemsOf(queue, tx.from), NextIn(fb, nonces, tx.from),
                     ItemsOf(pending', tx.from), ItemsOf(queue', tx.from), NextIn(fb, nonces', tx.from))
    requires SameElsewhere(tx.from, pending, pending') && NextsElsewhere(tx.from, fb, nonces, nonces')
    ensures AllCut(pending, fb, nonces, pending', nonces', if tx in all then {tx} else {})
  {
    var out := if tx in all then {tx} else {};
    if tx in all { FoundByNonce(pending, queue, all, tx.from, tx); }
    forall a: Address
      ensures CutBy(ItemsOf(pending, a), NextIn(fb, nonces, a), ItemsOf(pending', a), NextIn(fb, nonces', a),
                    NoncesOf(out, a))
    {
      if a == tx.from && tx in all {
        assert NoncesOf(out, a) == {tx.nonce};
        var p, p' := ItemsOf(pending, a), ItemsOf(pending', a);
        if Has(p, tx) {
          assert CutAt(p, NextIn(fb, nonces, a), p', NextIn(fb, nonces', a), tx.nonce);
        }
      } else {
        assert NoncesOf(out, a) == {};
      }
    }
  }

  /** What removeTx does to the lists and the virtual nonce of the sender. */
  ghost predicate Removal(tx: Tx, known: bool, p: Items, q: Items, next: nat, p': Items, q': Items, next': nat) {
    if !known then p' == p && q' == q && next' == next
    else if Has(p, tx) then
      p' == Below(p, tx.nonce) && q' == q + AtLeast(p, tx.nonce + 1) && next' == Min(next, tx.nonce)
    else
      Has(q, tx) && p' == p && q' == q - {tx.nonce} && next' == next
  }

  lemma NoRemoval(tx: Tx, p: Items, q: Items, next: nat, locals: set<Tx>, remotes: set<Tx>)
    requires tx !in locals && tx !in remotes
    ensures Removal(tx, false, p, q, next, p, q, next)
    ensures locals - {tx} == locals && remotes - {tx} == remotes
  {
  }

  lemma RemovalSpec(pending: Accounts, queue: Accounts, all: set<Tx>, tx: Tx, next: nat)
    requires Books(pending, queue, all, tx.from, map[]) && tx in all
    ensures var p, q := ItemsOf(pending, tx.from), ItemsOf(queue, tx.from);
      if tx.nonce in p
      then Removal(tx, true, p, q, next, Below(p, tx.nonce), q + AtLeast(p, tx.nonce + 1), Min(next, tx.nonce))
      else Removal(tx, true, p, q, next, p, q - {tx.nonce}, next)
  {
    FoundByNonce(pending, queue, all, tx.from, tx);
  }

  /** The books after the list of the sender was changed by removeTx. */
  lemma RemovalCases(pending: Accounts, queue: Accounts, all: set<Tx>, tx: Tx)
    requires Books(pending, queue, all, tx.from, map[]) && tx in all
    ensures var a := tx.from; var p, q := ItemsOf(pending, a), ItemsOf(queue, a);
      if tx.nonce in p then
        var l := pending[a]; var pending' := Store(pending, a, l.(items := Below(p, tx.nonce)));
        && Books(pending', queue, all - {tx}, a, AtLeast(p, tx.nonce + 1))
        && ItemsOf(pending', a) == Below(p, tx.nonce) && SameElsewhere(a, pending, pending')
      else
        && tx.nonce in q && a in queue
        && var l := queue[a]; var queue' := Store(queue, a, l.(items := q - {tx.nonce}));
        && Books(pending, queue', all - {tx}, a, map[])
        && ItemsOf(queue', a) == q - {tx.nonce} && SameElsewhere(a, queue, queue')
  {
    var a := tx.from;
    FoundByNonce(pending, queue, all, a, tx);
    if tx.nonce in ItemsOf(pending, a) {
      RemovePending(pending, queue, all, tx);
    } else {
      RemoveQueued(pending, queue, all, tx);
    }
  }

  lemma RemovePending(pending: Accounts, queue: Accounts, all: set<Tx>, tx: Tx)
    requires Books(pending, queue, all, tx.from, map[]) && Has(ItemsOf(pending, tx.from), tx)
    ensures var a := tx.from; var l := pending[a];
      var pending' := Store(pending, a, l.(items := Below(l.items, tx.nonce)));
      && Books(pending', queue, all - {tx}, a, AtLeast(l.items, tx.nonce + 1))
      && ItemsOf(pending', a) == Below(l.items, tx.nonce) && SameElsewhere(a, pending, pending')
  {
    hide Account;
    var a := tx.from;
    var l := pending[a];
    var p, q := l.items, ItemsOf(queue, a);
    AccountOf(pending, queue, all, a, map[]);
    StoreKeeps(pending, a, l.(items := Below(p, tx.nonce)), true);
    OutOfPending(a, p, q, all, Below(p, tx.nonce));
    Forget(a, Below(p, tx.nonce), q, p - Below(p, tx.nonce).Keys, all, AtLeast(p, tx.nonce + 1), {tx});
    EditAccount(pending, queue, all, a, map[], Store(pending, a, l.(items := Below(p, tx.nonce))), queue,
                all - {tx}, AtLeast(p, tx.nonce + 1));
  }

  lemma RemoveQueued(pending: Accounts, queue: Accounts, all: set<Tx>, tx: Tx)
    requires Books(pending, queue, all, tx.from, map[]) && Has(ItemsOf(queue, tx.from), tx)
    ensures var a := tx.from; var l := queue[a]; var queue' := Store(queue, a, l.(items := l.items - {tx.nonce}));
      && Books(pending, queue', all - {tx}, a, map[])
      && ItemsOf(queue', a) == l.items - {tx.nonce} && SameElsewhere(a, queue, queue')
  {
    hide Account;
    var a := tx.from;
    var l := queue[a];
    var p, q := ItemsOf(pending, a), l.items;
    AccountOf(pending, queue, all, a, map[]);
    StoreKeeps(queue, a, l.(items := q - {tx.nonce}), false);
    OutOfQueue(a, p, q, all, q - {tx.nonce});
    Forget(a, p, q - {tx.nonce}, q - (q - {tx.nonce}).Keys, all, map[], {tx});
    EditAccount(pending, queue, all, a, map[], pending, Store(queue, a, l.(items := q - {tx.nonce})), all - {tx},
                map[]);
  }

  /** `now` is `before` plus what has left `todo` of the transactions `moved`. */
  ghost predicate Moving(before: Items, moved: Items, todo: Items, now: Items) {
    && todo.Keys <= moved.Keys && (forall n :: n in todo ==> todo[n] == moved[n])
    && now == before + (moved - todo.Keys)
  }

  lemma MovingStep(before: Items, moved: Items, todo: Items, now: Items, n: nat)
    requires Moving(before, moved, todo, now) && n in todo
    ensures Moving(before, moved, todo - {n}, now[n := todo[n]])
  {
    assert now[n := todo[n]] == before + (moved - (todo - {n}).Keys);
  }

  lemma FewerLeft(todo: Items, n: nat)
    requires n in todo
    ensures |todo - {n}| < |todo|
  {
    assert todo.Keys == (todo - {n}).Keys + {n};
  }

  lemma MovingStart(before: Items, moved: Items)
    ensures Moving(before, moved, moved, before)
  {
    assert before == before + (moved - moved.Keys);
  }

  lemma MovingDone(before: Items, moved: Items, now: Items)
    requires Moving(before, moved, map[], now)
    ensures now == before + moved
  {
  }

  lemma ElsewhereRefl(a: Address, ls: Accounts)
    ensures SameElsewhere(a, ls, ls)
  {
  }

  lemma ElsewhereTrans(a: Address, ls: Accounts, ls': Accounts, ls'': Accounts)
    requires SameElsewhere(a, ls, ls') && SameElsewhere(a, ls', ls'')
    ensures SameElsewhere(a, ls, ls'')
  {
  }

  lemma LimboOwned(pending: Accounts, queue: Accounts, all: set<Tx>, a: Address, limbo: Items, n: nat)
    requires Books(pending, queue, all, a, limbo) && n in limbo
    ensures limbo[n].from == a && Has(limbo, limbo[n]) && limbo[n].nonce == n
  {
    AccountOf(pending, queue, all, a, limbo);
  }

  lemma LimboKeyed(pending: Accounts, queue: Accounts, all: set<Tx>, a: Address, limbo: Items)
    requires Books(pending, queue, all, a, limbo)
    ensures Keyed(limbo)
  {
    AccountOf(pending, queue, all, a, limbo);
  }

  /** The first `i` of the sorted transactions have been promoted. */
  ghost predicate Promoted(a: Address, txs: seq<Tx>, ready: Items, todo: Items, i: nat, pending: Accounts,
                           pending': Accounts, fb: ChainState, nonces: map<Address, nat>, nonces': map<Address, nat>) {
    && PromotedItems(txs, ready, todo, i) && Moving(ItemsOf(pending, a), ready, todo, ItemsOf(pending', a))
    && NextIn(fb, nonces', a) == (if i == 0 then NextIn(fb, nonces, a) else txs[i - 1].nonce + 1)
    && SameElsewhere(a, pending, pending') && NextsElsewhere(a, fb, nonces, nonces')
  }

  ghost predicate PromotedItems(txs: seq<Tx>, ready: Items, todo: Items, i: nat) {
    && SortedListing(txs, ready) && i <= |txs|
    && (forall n :: n in todo <==> n in ready && forall j :: 0 <= j < i ==> txs[j].nonce != n)
    && (forall n :: n in todo ==> todo[n] == ready[n])
  }

  lemma PromoteStart(a: Address, txs: seq<Tx>, ready: Items, pending: Accounts, fb: ChainState,
                     nonces: map<Address, nat>)
    requires SortedListing(txs, ready)
    ensures Promoted(a, txs, ready, ready, 0, pending, pending, fb, nonces, nonces)
  {
    MovingStart(ItemsOf(pending, a), ready);
  }

  lemma PromoteHas(a: Address, txs: seq<Tx>, ready: Items, todo: Items, i: nat, pending: Accounts, pending': Accounts,
                   fb: ChainState, nonces: map<Address, nat>, nonces': map<Address, nat>)
    requires Promoted(a, txs, ready, todo, i, pending, pending', fb, nonces, nonces') && i < |txs|
    ensures Has(todo, txs[i]) && txs[i].nonce in todo && todo[txs[i].nonce] == txs[i]
  {
    assert txs[i].nonce in ready && ready[txs[i].nonce] == txs[i];
  }

  lemma PromoteStep(a: Address, txs: seq<Tx>, ready: Items, todo: Items, i: nat,
                    pending: Accounts, pending': Accounts, pending'': Accounts,
                    fb: ChainState, nonces: map<Address, nat>, nonces': map<Address, nat>, nonces'': map<Address, nat>)
    requires Promoted(a, txs, ready, todo, i, pending, pending', fb, nonces, nonces') && i < |txs|
    requires SameElsewhere(a, pending', pending'')
      && ItemsOf(pending'', a) == ItemsOf(pending', a)[txs[i].nonce := txs[i]]
    requires NextsElsewhere(a, fb, nonces', nonces'') && NextIn(fb, nonces'', a) == txs[i].nonce + 1
    ensures Promoted(a, txs, ready, todo - {txs[i].nonce}, i + 1, pending, pending'', fb, nonces, nonces'')
  {
    hide Moving, SameElsewhere, NextsElsewhere, PromotedItems, NextIn;
    PromoteHas(a, txs, ready, todo, i, pending, pending', fb, nonces, nonces');
    MovingStep(ItemsOf(pending, a), ready, todo, ItemsOf(pending', a), txs[i].nonce);
    ElsewhereTrans(a, pending, pending', pending'');
    NextsTrans(a, fb, nonces, nonces', nonces'');
    PromotedItemsStep(txs, ready, todo, i);
  }

  lemma PromotedItemsStep(txs: seq<Tx>, ready: Items, todo: Items, i: nat)
    requires PromotedItems(txs, ready, todo, i) && i < |txs|
    ensures PromotedItems(txs, ready, todo - {txs[i].nonce}, i + 1)
  {
    hide Lists, Increasing;
  }

  lemma PromoteDone(a: Address, txs: seq<Tx>, ready: Items, todo: Items, pending: Accounts, pending': Accounts,
                    fb: ChainState, nonces: map<Address, nat>, nonces': map<Address, nat>)
    requires Promoted(a, txs, ready, todo, |txs|, pending, pending', fb, nonces, nonces')
    ensures todo == map[] && NextAfter(ready, NextIn(fb, nonces, a), NextIn(fb, nonces', a))
    ensures ItemsOf(pending', a) == ItemsOf(pending, a) + ready
    ensures SameElsewhere(a, pending, pending') && NextsElsewhere(a, fb, nonces, nonces')
  {
    hide PromotedItems, SameElsewhere, NextsElsewhere, NextIn, NextAfter;
    PromotedAll(txs, ready, todo, NextIn(fb, nonces, a), NextIn(fb, nonces', a));
  }

  lemma PromotedAll(txs: seq<Tx>, ready: Items, todo: Items, next: nat, next': nat)
    requires PromotedItems(txs, ready, todo, |txs|)
    requires next' == if |txs| == 0 then next else txs[|txs| - 1].nonce + 1
    ensures todo == map[] && NextAfter(ready, next, next')
  {
    NothingLeft(txs, ready, todo);
    if txs != [] {
      LastIsHighest(txs, ready);
    } else {
      assert ready.Keys == {};
    }
  }

  lemma NothingLeft(txs: seq<Tx>, ready: Items, todo: Items)
    requires PromotedItems(txs, ready, todo, |txs|)
    ensures todo == map[]
  {
    hide Increasing;
    forall n | n in ready ensures n !in todo {
      var j := ListingCovers(txs, ready, n);
    }
    assert todo.Keys == {};
  }

  /** A transaction in transit enters the pending list, at a nonce that is free there. */
  lemma PendingBack(pending: Accounts, queue: Accounts, all: set<Tx>, tx: Tx, limbo: Items)
    requires Books(pending, queue, all, tx.from, limbo) && Has(limbo, tx)
    ensures var p := ItemsOf(pending, tx.from);
      var pending' := pending[tx.from := Added(ListOf(pending, tx.from, NEW_PENDING), tx)];
      && tx.nonce !in p
      && ItemsOf(pending', tx.from) == p[tx.nonce := tx]
      && SameElsewhere(tx.from, pending, pending')
      && Books(pending', queue, all, tx.from, limbo - {tx.nonce})
  {
    hide Account;
    var a := tx.from;
    AccountOf(pending, queue, all, a, limbo);
    AddedKeeps(pending, a, tx, true);
    ToPending(a, ItemsOf(pending, a), ItemsOf(queue, a), limbo, all, tx.nonce);
    EditAccount(pending, queue, all, a, limbo, pending[a := Added(ListOf(pending, a, NEW_PENDING), tx)], queue, all,
                limbo - {tx.nonce});
  }

  lemma TracksIfRemoval(heap: seq<Tx>, remotes: set<Tx>, stales: int, t: Tx)
    ensures Tracks(heap, [], remotes, stales) ==> Tracks(heap, [], remotes - {t}, stales + 1)
  {
    if Tracks(heap, [], remotes, stales) { TracksRemoval(heap, remotes, stales, t); }
  }

  lemma TracksIfAddition(heap: seq<Tx>, remotes: set<Tx>, stales: int, t: Tx, local: bool, heap': seq<Tx>)
    requires t !in remotes
    requires multiset(heap') == multiset(heap) + if local then multiset{} else multiset{t}
    ensures Tracks(heap, [], remotes, stales) ==> Tracks(heap', [], remotes + (if local then {} else {t}), stales)
  {
    if Tracks(heap, [], remotes, stales) { TracksAddition(heap, remotes, stales, t, local, heap'); }
  }

  // ---------------------------------------------------------------------
  // The books after each kind of move

  function ListOf(ls: Accounts, a: Address, blank: List): List {
    if a in ls then ls[a] else blank
  }

  lemma AddedKeeps(ls: Accounts, a: Address, tx: Tx, strict: bool)
    requires WellFormed(ls, strict) && tx.from == a
    ensures var list := ListOf(ls, a, List(strict, map[], 0, 0)); var ls' := ls[a := Added(list, tx)];
      && list.items == ItemsOf(ls, a)
      && WellFormed(ls', strict) && SameElsewhere(a, ls, ls')
      && ItemsOf(ls', a) == ItemsOf(ls, a)[tx.nonce := tx]
  {
    var list := ListOf(ls, a, List(strict, map[], 0, 0));
    assert list.Valid();
    assert Added(list, tx).Valid() && tx.nonce in Added(list, tx).items;
  }

  /** A new transaction enters the queue, possibly in place of an older one. */
  lemma QueueNew(pending: Accounts, queue: Accounts, all: set<Tx>, tx: Tx)
    requires Books(pending, queue, all, tx.from, map[])
    requires tx !in all && tx.nonce !in ItemsOf(pending, tx.from)
    ensures var q := ItemsOf(queue, tx.from);
      var queue' := queue[tx.from := Added(ListOf(queue, tx.from, NEW_QUEUE), tx)];
      && (tx.nonce in q ==> q[tx.nonce] in all)
      && ItemsOf(queue', tx.from) == q[tx.nonce := tx]
      && SameElsewhere(tx.from, queue, queue')
      && Books(pending, queue', all - (if tx.nonce in q then {q[tx.nonce]} else {}) + {tx}, tx.from, map[])
  {
    hide Account;
    var a := tx.from;
    var p, q := ItemsOf(pending, a), ItemsOf(queue, a);
    var queue' := queue[a := Added(ListOf(queue, a, NEW_QUEUE), tx)];
    var all' := all - (if tx.nonce in q then {q[tx.nonce]} else {}) + {tx};
    AccountOf(pending, queue, all, a, map[]);
    AddedKeeps(queue, a, tx, false);
    ReplacedInQueue(a, p, q, all, tx);
    EditAccount(pending, queue, all, a, map[], pending, queue', all', map[]);
  }

  /** A transaction in transit comes back to the queue, at a nonce that is free there. */
  lemma QueueBack(pending: Accounts, queue: Accounts, all: set<Tx>, tx: Tx, limbo: Items)
    requires Books(pending, queue, all, tx.from, limbo) && Has(limbo, tx)
    ensures var q := ItemsOf(queue, tx.from);
      var queue' := queue[tx.from := Added(ListOf(queue, tx.from, NEW_QUEUE), tx)];
      && tx.nonce !in q
      && ItemsOf(queue', tx.from) == q[tx.nonce := tx]
      && SameElsewhere(tx.from, queue, queue')
      && Books(pending, queue', all, tx.from, limbo - {tx.nonce})
  {
    hide Account;
    var a := tx.from;
    AccountOf(pending, queue, all, a, limbo);
    AddedKeeps(queue, a, tx, false);
    ToQueue(a, ItemsOf(pending, a), ItemsOf(queue, a), limbo, all, tx.nonce);
    EditAccount(pending, queue, all, a, limbo, pending, queue[a := Added(ListOf(queue, a, NEW_QUEUE), tx)], all,
                limbo - {tx.nonce});
  }

  /** A new transaction takes the place of a pending one of the same nonce. */
  lemma PendingReplaced(pending: Accounts, queue: Accounts, all: set<Tx>, tx: Tx)
    requires Books(pending, queue, all, tx.from, map[])
    requires tx !in all && tx.nonce in ItemsOf(pending, tx.from)
    ensures var p := ItemsOf(pending, tx.from); var pending' := pending[tx.from := Added(pending[tx.from], tx)];
      && p[tx.nonce] in all
      && ItemsOf(pending', tx.from) == p[tx.nonce := tx]
      && SameElsewhere(tx.from, pending, pending')
      && Books(pending', queue, all - {p[tx.nonce]} + {tx}, tx.from, map[])
  {
    hide Account;
    var a := tx.from;
    var p, q := ItemsOf(pending, a), ItemsOf(queue, a);
    AccountOf(pending, queue, all, a, map[]);
    AddedKeeps(pending, a, tx, true);
    ReplacedInPending(a, p, q, all, tx);
    EditAccount(pending, queue, all, a, map[], pending[a := Added(pending[a], tx)], queue, all - {p[tx.nonce]} + {tx},
                map[]);
  }

  /** Pending lists that keep their nonces, with the virtual nonces untouched. */
  lemma SameKeysCut(a: Address, pending: Accounts, pending': Accounts, fb: ChainState, nonces: map<Address, nat>)
    requires SameElsewhere(a, pending, pending') && ItemsOf(pending, a).Keys == ItemsOf(pending', a).Keys
    ensures AllCut(pending, fb, nonces, pending', nonces, {})
  {
    forall b: Address
      ensures CutBy(ItemsOf(pending, b), NextIn(fb, nonces, b), ItemsOf(pending', b), NextIn(fb, nonces, b),
                    NoncesOf({}, b))
    {
      if b != a { assert ItemsOf(pending, b) == ItemsOf(pending', b); }
    }
  }

  lemma TracksMigration(heap: seq<Tx>, remotes: set<Tx>, stales: int, remotes': set<Tx>, migrated: nat)
    requires Tracks(heap, [], remotes, stales) && remotes' <= remotes && migrated == |remotes| - |remotes'|
    ensures Tracks(heap, [], remotes', stales + migrated)
  {
  }

  lemma OwnNonces(pending: Accounts, queue: Accounts, all: set<Tx>, a: Address)
    requires Books(pending, queue, all, a, map[])
    ensures forall n :: n in ItemsOf(pending, a) ==>
      ItemsOf(pending, a)[n].from == a && ItemsOf(pending, a)[n].nonce == n
    ensures forall n :: n in ItemsOf(queue, a) ==> ItemsOf(queue, a)[n].from == a && ItemsOf(queue, a)[n].nonce == n
  {
    AccountOf(pending, queue, all, a, map[]);
  }

  /** The known transactions of the same sender and nonce: the pending or the queued one. */
  lemma RivalsAre(pending: Accounts, queue: Accounts, all: set<Tx>, tx: Tx)
    requires Books(pending, queue, all, tx.from, map[])
    ensures var p, q := ItemsOf(pending, tx.from), ItemsOf(queue, tx.from);
      Rivals(all, tx) == if tx.nonce in p then {p[tx.nonce]} else if tx.nonce in q then {q[tx.nonce]} else {}
  {
    assert Account(tx.from, ItemsOf(pending, tx.from), ItemsOf(queue, tx.from), map[], all);
  }

  lemma CutAndPlace(pending: Accounts, fb: ChainState, nonces: map<Address, nat>,
                    pending': Accounts, nonces': map<Address, nat>, out: set<Tx>, pending'': Accounts)
    requires AllCut(pending, fb, nonces, pending', nonces', out)
    requires AllCut(pending', fb, nonces', pending'', nonces', {})
    ensures AllCut(pending, fb, nonces, pending'', nonces', out)
  {
    hide AllCut;
    AllCutTrans(pending, fb, nonces, pending', nonces', out, pending'', nonces', {});
    assert out + {} == out;
  }

  /** Many transactions leave at once; their entries are counted as stale together. */
  lemma TracksBulk(heap: seq<Tx>, remotes: set<Tx>, stales: int, gone: set<Tx>, count: nat)
    requires Tracks(heap, [], remotes, stales) && |gone| <= count
    ensures Tracks(heap, [], remotes - gone, stales + count)
  {
    assert |remotes - gone| >= |remotes| - |gone| by {
      assert remotes == (remotes - gone) + (remotes * gone);
      SubsetSize(remotes * gone, gone);
    }
  }

  /** The queued transactions that are neither too old nor unpayable. */
  function Executable(l: List, sn: nat, balance: nat, maxGas: nat): Items {
    Filtered(l.(items := AtLeast(l.items, sn)), balance, maxGas).items
  }

  lemma ExecutableIsPayable(l: List, sn: nat, balance: nat, maxGas: nat)
    requires l.Valid()
    ensures var e := Executable(l, sn, balance, maxGas);
      e.Keys <= l.items.Keys && (forall n :: n in e ==> e[n] == l.items[n] && sn <= n) && Payable(e, balance, maxGas)
  {
    TxLists.FilterPartitions(l.(items := AtLeast(l.items, sn)), balance, maxGas);
  }

  /** What promotion leaves in a queue, takes from it, and drops. */
  datatype Split = Split(left: List, ready: Items, gone: set<Tx>, count: nat)

  /** The list operations of promoteExecutables: Forward, Filter, Ready. */
  function Promotion(l: List, sn: nat, balance: nat, maxGas: nat, next: nat): Split {
    var forwards := Below(l.items, sn);
    var l1 := l.(items := AtLeast(l.items, sn));
    var drops := Unpayable(l1, balance, maxGas);
    var l2 := Filtered(l1, balance, maxGas);
    var ready := ReadyItems(l2.items, next);
    Split(l2.(items := l2.items - ready.Keys), ready, ValuesOf(forwards) + ValuesOf(drops), |forwards| + |drops|)
  }

  lemma PromotionKeepsBooks(pending: Accounts, queue: Accounts, all: set<Tx>, a: Address, sn: nat, balance: nat,
                            maxGas: nat, next: nat)
    requires Books(pending, queue, all, a, map[]) && a in queue
    ensures var s := Promotion(queue[a], sn, balance, maxGas, next); var queue' := Store(queue, a, s.left);
      var e := Executable(queue[a], sn, balance, maxGas);
      && s.ready == ReadyItems(e, next) && ItemsOf(queue', a) == e - s.ready.Keys
      && Books(pending, queue', all - s.gone, a, s.ready)
      && SameElsewhere(a, queue, queue') && |s.gone| == s.count
  {
    hide Account;
    var l := queue[a];
    var s := Promotion(l, sn, balance, maxGas, next);
    PromotionParts(l, sn, balance, maxGas, next);
    ShrinkQueue(pending, queue, all, a, s.left, s.ready);
  }

  lemma PromotionParts(l: List, sn: nat, balance: nat, maxGas: nat, next: nat)
    requires l.Valid() && !l.strict
    ensures var s := Promotion(l, sn, balance, maxGas, next);
      && s.left.Valid() && !s.left.strict && PartsOf(s.left.items, s.ready, l.items)
      && ValuesOf(l.items - s.left.items.Keys - s.ready.Keys) == s.gone
      && |s.gone| == s.count
  {
    hide Filtered, Unpayable, Invalidated, ValuesOf, PartsOf, FourParts, ReadyItems, List.Valid;
    var l1 := l.(items := AtLeast(l.items, sn));
    var l2 := Filtered(l1, balance, maxGas);
    var r := ReadyItems(l2.items, next);
    var f, d, v := Below(l.items, sn), Unpayable(l1, balance, maxGas), Invalidated(l1, balance, maxGas);
    DemotedParts(l, sn, balance, maxGas);
    ReadyIsPart(l2.items, next);
    NoneInvalidated(l1, balance, maxGas);
    ReadyParts(l.items, f, d, v, l2.items, r);
    LessIsValid(l2, r.Keys);
    BelowKeyed(l, sn, l1, balance, maxGas);
    RestIsDropped(l.items, f, d, l2.items - r.Keys, r);
    FirstTwo(l.items, f, d, v, l2.items);
    TwoValues(f, d);
  }

  lemma NoneInvalidated(l: List, balance: nat, maxGas: nat)
    requires !l.strict
    ensures Invalidated(l, balance, maxGas) == map[]
  {
  }

  lemma LessIsValid(l: List, ns: set<nat>)
    requires l.Valid()
    ensures l.(items := l.items - ns).Valid()
  {
  }

  lemma ReadyParts(m: Items, f: Items, d: Items, v: Items, e: Items, r: Items)
    requires FourParts(m, f, d, v, e) && v == map[] && r.Keys <= e.Keys && forall n :: n in r ==> r[n] == e[n]
    ensures PartsOf(e - r.Keys, r, m)
    ensures forall n :: n in m ==> (n in e - r.Keys || n in r <==> n !in f && n !in d)
  {
  }

  // ---------------------------------------------------------------------
  // Promotion and demotion over all accounts

  ghost predicate AllPromote(pending: Accounts, nonces: map<Address, nat>, pending': Accounts,
                             nonces': map<Address, nat>, state: ChainState, maxGas: nat) {
    forall a: Address ::
      Promotes(ItemsOf(pending, a), NextIn(state, nonces, a), ItemsOf(pending', a), NextIn(state, nonces', a),
                                  state.NonceOf(a), state.BalanceOf(a), maxGas)
  }

  lemma AllPromoteRefl(pending: Accounts, nonces: map<Address, nat>, state: ChainState, maxGas: nat)
    ensures AllPromote(pending, nonces, pending, nonces, state, maxGas)
  {
  }

  lemma AllPromoteTrans(pending: Accounts, nonces: map<Address, nat>, pending': Accounts, nonces': map<Address, nat>,
                        pending'': Accounts, nonces'': map<Address, nat>, state: ChainState, maxGas: nat)
    requires AllPromote(pending, nonces, pending', nonces', state, maxGas)
    requires AllPromote(pending', nonces', pending'', nonces'', state, maxGas)
    ensures AllPromote(pending, nonces, pending'', nonces'', state, maxGas)
  {
    hide Aligned, Resetting, Lagging;
  }

  /** Promoting one account. */
  lemma PromoteOne(a: Address, pending: Accounts, queue: Accounts, all: set<Tx>, nonces: map<Address, nat>,
                   pending': Accounts, nonces': map<Address, nat>, state: ChainState, maxGas: nat)
    requires Books(pending, queue, all, a, map[]) && a in queue
    requires SameElsewhere(a, pending, pending') && NextsElsewhere(a, state, nonces, nonces')
    requires var e := Executable(queue[a], state.NonceOf(a), state.BalanceOf(a), maxGas);
      var r := ReadyItems(e, NextIn(state, nonces, a));
      ItemsOf(pending', a) == ItemsOf(pending, a) + r
        && NextAfter(r, NextIn(state, nonces, a), NextIn(state, nonces', a))
    ensures AllPromote(pending, nonces, pending', nonces', state, maxGas)
  {
    hide Aligned, Resetting, Lagging, ReadyItems, NextAfter, Executable, Payable;
    AccountOf(pending, queue, all, a, map[]);
    ExecutableIsPayable(queue[a], state.NonceOf(a), state.BalanceOf(a), maxGas);
    PromotionPromotes(ItemsOf(pending, a), Executable(queue[a], state.NonceOf(a), state.BalanceOf(a), maxGas),
                      state.NonceOf(a),
                      NextIn(state, nonces, a), NextIn(state, nonces', a), state.BalanceOf(a), maxGas);
    forall b: Address
      ensures Promotes(ItemsOf(pending, b), NextIn(state, nonces, b), ItemsOf(pending', b), NextIn(state, nonces', b),
                       state.NonceOf(b), state.BalanceOf(b), maxGas)
    {
    }
  }

  /** Capping a queue to its lowest nonces. */
  lemma CapKeepsBooks(pending: Accounts, queue: Accounts, all: set<Tx>, a: Address, kept: Items, k: nat)
    requires Books(pending, queue, all, a, map[]) && a in queue && LowestOf(kept, queue[a].items, k)
    ensures var queue' := Store(queue, a, queue[a].(items := kept)); var gone := ValuesOf(queue[a].items - kept.Keys);
      && Books(pending, queue', all - gone, a, map[])
      && SameElsewhere(a, queue, queue') && ItemsOf(queue', a) == kept
  {
    hide Account, Books, SameElsewhere, ValuesOf;
    var m := queue[a].items;
    var none: Items := map[];
    CapParts(pending, queue, all, a, kept, k);
    ShrinkQueue(pending, queue, all, a, queue[a].(items := kept), none);
    assert m - kept.Keys - none.Keys == m - kept.Keys;
  }

  lemma CapParts(pending: Accounts, queue: Accounts, all: set<Tx>, a: Address, kept: Items, k: nat)
    requires Books(pending, queue, all, a, map[]) && a in queue && LowestOf(kept, queue[a].items, k)
    ensures queue[a].(items := kept).Valid() && !queue[a].strict && PartsOf(kept, map[], queue[a].items)
  {
  }

  lemma CapCount(m: Items, kept: Items, k: nat)
    requires Keyed(m) && LowestOf(kept, m, k)
    ensures |kept| <= |m| && |ValuesOf(m - kept.Keys)| == |m| - |kept|
  {
    ValuesSize(m - kept.Keys);
    assert (m - kept.Keys).Keys == m.Keys - kept.Keys;
    assert m.Keys == kept.Keys + (m.Keys - kept.Keys);
  }

  lemma ListKeyed(pending: Accounts, queue: Accounts, all: set<Tx>, a: Address)
    requires Books(pending, queue, all, a, map[])
    ensures Keyed(ItemsOf(pending, a)) && Keyed(ItemsOf(queue, a))
  {
    AccountOf(pending, queue, all, a, map[]);
  }

  lemma BulkTwice(heap: seq<Tx>, remotes: set<Tx>, stales: int, g1: set<Tx>, g2: set<Tx>, c1: nat, c2: nat)
    requires Tracks(heap, [], remotes, stales) && |g1| <= c1 && |g2| <= c2
    ensures Tracks(heap, [], remotes - g1 - g2, stales + (c1 + c2))
  {
    TracksBulk(heap, remotes, stales, g1, c1);
    TracksBulk(heap, remotes - g1, stales + c1, g2, c2);
  }

  /** The list operations of demoteUnexecutables: Forward, Filter and, if the first current
      nonce is missing, giving up the whole list. `ready` is what goes back to the queue. */
  function Demotion(l: List, sn: nat, balance: nat, maxGas: nat): Split {
    var olds := Below(l.items, sn);
    var l1 := l.(items := AtLeast(l.items, sn));
    var drops, invalids := Unpayable(l1, balance, maxGas), Invalidated(l1, balance, maxGas);
    var l2 := Filtered(l1, balance, maxGas);
    var gap := l2.items != map[] && sn !in l2.items;
    Split(l2.(items := if gap then map[] else l2.items), if gap then invalids + l2.items else invalids,
          ValuesOf(olds) + ValuesOf(drops), |olds| + |drops|)
  }

  lemma DemotionKeepsBooks(pending: Accounts, queue: Accounts, all: set<Tx>, a: Address, sn: nat, balance: nat,
                           maxGas: nat)
    requires Books(pending, queue, all, a, map[]) && a in pending
    ensures var s := Demotion(pending[a], sn, balance, maxGas); var pending' := Store(pending, a, s.left);
      && Books(pending', queue, all - s.gone, a, s.ready)
      && SameElsewhere(a, pending, pending') && ItemsOf(pending', a) == s.left.items && |s.gone| == s.count
  {
    hide Account;
    var s := Demotion(pending[a], sn, balance, maxGas);
    DemotionParts(pending[a], sn, balance, maxGas);
    ShrinkPending(pending, queue, all, a, s.left, s.ready);
  }

  lemma DemotionParts(l: List, sn: nat, balance: nat, maxGas: nat)
    requires l.Valid() && l.strict
    ensures var s := Demotion(l, sn, balance, maxGas);
      && s.left.Valid() && s.left.strict && PartsOf(s.left.items, s.ready, l.items)
      && ValuesOf(l.items - s.left.items.Keys - s.ready.Keys) == s.gone
      && |s.gone| == s.count
  {
    hide Filtered, Unpayable, Invalidated, ValuesOf, PartsOf, FourParts;
    var l1 := l.(items := AtLeast(l.items, sn));
    var e := Filtered(l1, balance, maxGas).items;
    var f, d, v := Below(l.items, sn), Unpayable(l1, balance, maxGas), Invalidated(l1, balance, maxGas);
    DemotedParts(l, sn, balance, maxGas);
    var s := Demotion(l, sn, balance, maxGas);
    if e != map[] && sn !in e {
      FiveParts(l.items, f, d, v, e, map[], v + e);
    } else {
      FiveParts(l.items, f, d, v, e, e, v);
    }
    BelowKeyed(l, sn, l1, balance, maxGas);
    RestIsDropped(l.items, f, d, s.left.items, s.ready);
    FirstTwo(l.items, f, d, v, e);
    TwoValues(f, d);
  }

  lemma FirstTwo(m: Items, f: Items, d: Items, v: Items, e: Items)
    requires FourParts(m, f, d, v, e)
    ensures f.Keys !! d.Keys
  {
  }

  lemma TwoValues(f: Items, d: Items)
    requires Keyed(f) && Keyed(d) && f.Keys !! d.Keys
    ensures |ValuesOf(f) + ValuesOf(d)| == |f| + |d|
  {
    ValuesSize(f);
    ValuesSize(d);
    forall t | t in ValuesOf(f) ensures t !in ValuesOf(d) { assert t.nonce in f; }
  }

  lemma BelowKeyed(l: List, sn: nat, l1: List, balance: nat, maxGas: nat)
    requires l.Valid() && l1 == l.(items := AtLeast(l.items, sn))
    ensures Keyed(Below(l.items, sn)) && Keyed(Unpayable(l1, balance, maxGas))
    ensures forall n :: n in Below(l.items, sn) ==> n in l.items && Below(l.items, sn)[n] == l.items[n]
    ensures forall n :: n in Unpayable(l1, balance, maxGas) ==>
      n in l.items && Unpayable(l1, balance, maxGas)[n] == l.items[n]
  {
  }

  /** `m` falls apart into `f`, `d`, `v` and `e`. */
  ghost predicate FourParts(m: Items, f: Items, d: Items, v: Items, e: Items) {
    && f.Keys !! d.Keys !! v.Keys !! e.Keys && m.Keys == f.Keys + d.Keys + v.Keys + e.Keys
    && (forall n :: n in f ==> f[n] == m[n]) && (forall n :: n in d ==> d[n] == m[n])
    && (forall n :: n in v ==> v[n] == m[n]) && (forall n :: n in e ==> e[n] == m[n])
  }

  lemma DemotedParts(l: List, sn: nat, balance: nat, maxGas: nat)
    requires l.Valid()
    ensures var l1 := l.(items := AtLeast(l.items, sn));
      && FourParts(l.items, Below(l.items, sn), Unpayable(l1, balance, maxGas), Invalidated(l1, balance, maxGas),
                   Filtered(l1, balance, maxGas).items)
      && Filtered(l1, balance, maxGas).Valid() && Filtered(l1, balance, maxGas).strict == l.strict
  {
    hide Filtered, Unpayable, Invalidated;
    var l1 := l.(items := AtLeast(l.items, sn));
    TxLists.FilterPartitions(l1, balance, maxGas);
    FilterValues(l1, balance, maxGas);
    assert l.items.Keys == Below(l.items, sn).Keys + l1.items.Keys;
  }

  lemma FiveParts(m: Items, f: Items, d: Items, v: Items, e: Items, left: Items, back: Items)
    requires FourParts(m, f, d, v, e)
    requires (left == e && back == v) || (left == map[] && back == v + e)
    ensures PartsOf(left, back, m)
    ensures forall n :: n in m ==> (n in left || n in back <==> n !in f && n !in d)
  {
  }

  lemma FilterValues(l: List, balance: nat, maxGas: nat)
    requires l.Valid()
    ensures forall n :: n in Unpayable(l, balance, maxGas) ==>
      n in l.items && Unpayable(l, balance, maxGas)[n] == l.items[n]
    ensures forall n :: n in Invalidated(l, balance, maxGas) ==>
      n in l.items && Invalidated(l, balance, maxGas)[n] == l.items[n]
  {
  }

  lemma RestIsDropped(m: Items, f: Items, d: Items, left: Items, back: Items)
    requires (forall n :: n in f ==> n in m && f[n] == m[n]) && (forall n :: n in d ==> n in m && d[n] == m[n])
    requires forall n :: n in m ==> (n in left || n in back <==> n !in f && n !in d)
    ensures ValuesOf(m - left.Keys - back.Keys) == ValuesOf(f) + ValuesOf(d)
  {
    var rest := m - left.Keys - back.Keys;
    forall n ensures n in rest <==> n in f || n in d {}
    forall t ensures t in ValuesOf(rest) <==> t in ValuesOf(f) + ValuesOf(d) {
      if t in ValuesOf(f) { var n :| n in f && f[n] == t; assert rest[n] == t; }
      if t in ValuesOf(d) { var n :| n in d && d[n] == t; assert rest[n] == t; }
    }
  }

  /** Demotion settles the account; a gap in front never shows up after a clean reset. */
  lemma DemotionDemotes(l: List, sn: nat, next: nat, balance: nat, maxGas: nat)
    requires l.Valid() && l.strict
    ensures Demotes(l.items, next, Demotion(l, sn, balance, maxGas).left.items, sn, balance, maxGas)
  {
    hide Resetting, Loose, Filtered, Unpayable, Invalidated, ValuesOf;
    var l1 := l.(items := AtLeast(l.items, sn));
    if Resetting(l.items, sn, next, balance, maxGas) {
      DemotionSettles(l, sn, next, balance, maxGas);
    }
    if Lagging(l.items, sn, next) {
      TxLists.FilterPartitions(l1, balance, maxGas);
      assert Filtered(l1, balance, maxGas).items.Keys == {};
    }
  }

  /** Demotion has dealt with all accounts outside `todo`. */
  ghost predicate Demoting(pending: Accounts, pending': Accounts, nonces: map<Address, nat>, todo: set<Address>,
                           state: ChainState, maxGas: nat) {
    && todo <= pending'.Keys
    && (forall a :: a in todo ==> ItemsOf(pending', a) == ItemsOf(pending, a))
    && (forall a: Address :: a in todo || Demotes(ItemsOf(pending, a), NextIn(state, nonces, a), ItemsOf(pending', a),
                                                  state.NonceOf(a), state.BalanceOf(a), maxGas))
  }

  lemma DemotingStart(pending: Accounts, nonces: map<Address, nat>, state: ChainState, maxGas: nat)
    ensures Demoting(pending, pending, nonces, pending.Keys, state, maxGas)
  {
    hide Demotes;
    forall a: Address
      ensures a in pending.Keys || Demotes(ItemsOf(pending, a), NextIn(state, nonces, a), ItemsOf(pending, a),
                                           state.NonceOf(a), state.BalanceOf(a), maxGas)
    {
      NothingToDemote(state.NonceOf(a), NextIn(state, nonces, a), state.BalanceOf(a), maxGas);
    }
  }

  lemma DemotingStep(pending: Accounts, pending': Accounts, pending'': Accounts, nonces: map<Address, nat>,
                     todo: set<Address>, a: Address, state: ChainState, maxGas: nat)
    requires Demoting(pending, pending', nonces, todo, state, maxGas) && a in todo
    requires SameElsewhere(a, pending', pending'') && todo - {a} <= pending''.Keys
    requires Demotes(ItemsOf(pending', a), NextIn(state, nonces, a), ItemsOf(pending'', a), state.NonceOf(a),
                     state.BalanceOf(a), maxGas)
    ensures Demoting(pending, pending'', nonces, todo - {a}, state, maxGas)
  {
    hide Demotes;
  }

  lemma PendingStrict(pending: Accounts, queue: Accounts, all: set<Tx>, a: Address)
    requires Books(pending, queue, all, a, map[]) && a in pending
    ensures pending[a].Valid() && pending[a].strict && pending[a].items != map[]
      && pending[a].items == ItemsOf(pending, a)
  {
  }

  /** Dropping the highest nonce of a pending list. */
  lemma DropKeepsBooks(pending: Accounts, queue: Accounts, all: set<Tx>, a: Address, top: nat)
    requires Books(pending, queue, all, a, map[]) && a in pending && |pending[a].items| >= 2
    requires top in pending[a].items && forall n :: n in pending[a].items ==> n <= top
    ensures var l := pending[a]; var pending' := pending[a := l.(items := l.items - {top})];
      && Books(pending', queue, all - {l.items[top]}, a, map[])
      && SameElsewhere(a, pending, pending') && OneLess(l.items, ItemsOf(pending', a))
      && ItemsOf(pending', a) == l.items - {top} && Total(pending') == Total(pending) - 1
  {
    hide Account, Total;
    var l := pending[a];
    var l' := l.(items := l.items - {top});
    var none: Items := map[];
    CapByOne(l.items, top);
    assert l'.Valid() && l'.items != map[];
    ShrinkPending(pending, queue, all, a, l', none);
    assert l.items - l'.items.Keys - none.Keys == map[top := l.items[top]];
    assert ValuesOf(map[top := l.items[top]]) == {l.items[top]};
    TotalStore(pending, a, l');
  }

  lemma DropCuts(a: Address, pending: Accounts, pending': Accounts, fb: ChainState, nonces: map<Address, nat>,
                 nonces': map<Address, nat>, top: nat, tx: Tx)
    requires tx.from == a && tx.nonce == top && top in ItemsOf(pending, a) && forall n :: n in ItemsOf(pending, a) ==>
      n <= top
    requires SameElsewhere(a, pending, pending') && ItemsOf(pending', a) == ItemsOf(pending, a) - {top}
    requires NextsElsewhere(a, fb, nonces, nonces') && NextIn(fb, nonces', a) == Min(NextIn(fb, nonces, a), top)
    ensures AllCut(pending, fb, nonces, pending', nonces', {tx})
  {
    forall b: Address
      ensures CutBy(ItemsOf(pending, b), NextIn(fb, nonces, b), ItemsOf(pending', b), NextIn(fb, nonces', b),
                    NoncesOf({tx}, b))
    {
      if b == a {
        assert NoncesOf({tx}, a) == {top};
        assert ItemsOf(pending', a).Keys == Below(ItemsOf(pending, a), top).Keys;
        assert CutAt(ItemsOf(pending, a), NextIn(fb, nonces, a), ItemsOf(pending', a), NextIn(fb, nonces', a), top);
      } else {
        assert NoncesOf({tx}, b) == {};
      }
    }
  }

  lemma QueueHead(pending: Accounts, queue: Accounts, all: set<Tx>, a: Address)
    requires Books(pending, queue, all, a, map[]) && a in queue
    ensures queue[a].Valid() && !queue[a].strict && queue[a].items != map[] && queue[a].items == ItemsOf(queue, a)
  {
  }

  lemma QueuedTx(pending: Accounts, queue: Accounts, all: set<Tx>, a: Address, n: nat)
    requires Books(pending, queue, all, a, map[]) && n in ItemsOf(queue, a)
    ensures var tx := ItemsOf(queue, a)[n]; tx.from == a && tx.nonce == n && tx in all && n !in ItemsOf(pending, a)
  {
    AccountOf(pending, queue, all, a, map[]);
  }

  lemma QueuedRemoval(pending: Accounts, queue: Accounts, all: set<Tx>, pending': Accounts, queue': Accounts,
                      all': set<Tx>, a: Address, top: nat, next: nat, next': nat)
    requires Books(pending, queue, all, a, map[]) && Books(pending', queue', all', a, map[])
    requires a in queue && top in ItemsOf(queue, a) && top !in ItemsOf(pending, a)
      && forall n :: n in ItemsOf(queue, a) ==> n <= top
    requires ItemsOf(queue, a)[top].from == a && ItemsOf(queue, a)[top].nonce == top
    requires Removal(ItemsOf(queue, a)[top], true, ItemsOf(pending, a), ItemsOf(queue, a), next, ItemsOf(pending', a),
                     ItemsOf(queue', a), next')
    requires SameElsewhere(a, queue, queue')
    ensures OneLess(ItemsOf(queue, a), ItemsOf(queue', a)) && Total(queue') == Total(queue) - 1
  {
    hide Account, Total;
    CapByOne(ItemsOf(queue, a), top);
    TotalByItems(queue, queue', a, false);
  }

  lemma QueuesWellFormed(pending: Accounts, queue: Accounts, all: set<Tx>)
    requires Books(pending, queue, all, 0, map[])
    ensures WellFormed(pending, true) && WellFormed(queue, false)
  {
  }

  /** Nothing in the queue of `a` is outdated or unpayable, and its next nonce is not there. */
  ghost predicate Drained(queue: Accounts, nonces: map<Address, nat>, state: ChainState, maxGas: nat, a: Address) {
    var q := ItemsOf(queue, a);
    && NextIn(state, nonces, a) !in q && Payable(q, state.BalanceOf(a), maxGas)
    && forall n :: n in q ==> state.NonceOf(a) <= n
  }

  lemma NoQueueIsDrained(a: Address, queue: Accounts, nonces: map<Address, nat>, state: ChainState, maxGas: nat)
    ensures a !in queue ==> Drained(queue, nonces, state, maxGas, a) && NextsElsewhere(a, state, nonces, nonces)
  {
  }

  lemma StaysDrained(a: Address, queue: Accounts, nonces: map<Address, nat>, queue': Accounts,
                     nonces': map<Address, nat>, state: ChainState, maxGas: nat, b: Address)
    requires SameElsewhere(a, queue, queue') && NextsElsewhere(a, state, nonces, nonces') && b != a
      && Drained(queue, nonces, state, maxGas, b)
    ensures Drained(queue', nonces', state, maxGas, b)
  {
  }

  /** After the ready run has left, the next nonce is not among what remains. */
  lemma NextNotLeft(e: Items, next: nat, next': nat)
    requires NextAfter(ReadyItems(e, next), next, next')
    ensures next' !in e || next' in ReadyItems(e, next)
  {
    if exists k :: k in e && k <= next {
      var lo, end := TxLists.ReadyIsGapless(e, next);
      assert lo in ReadyItems(e, next);
      NextIsEnd(ReadyItems(e, next), lo, end, next');
    }
  }

  lemma DrainedQueue(a: Address, l: List, next: nat, queue: Accounts, nonces: map<Address, nat>, state: ChainState,
                     maxGas: nat)
    requires l.Valid()
    requires var e := Executable(l, state.NonceOf(a), state.BalanceOf(a), maxGas); var r := ReadyItems(e, next);
      && NextAfter(r, next, NextIn(state, nonces, a))
      && (ItemsOf(queue, a) == e - r.Keys || exists k: nat :: LowestOf(ItemsOf(queue, a), e - r.Keys, k))
    ensures Drained(queue, nonces, state, maxGas, a)
  {
    hide ReadyItems, NextAfter, Executable, NextIn;
    var e := Executable(l, state.NonceOf(a), state.BalanceOf(a), maxGas);
    ExecutableIsPayable(l, state.NonceOf(a), state.BalanceOf(a), maxGas);
    NextNotLeft(e, next, NextIn(state, nonces, a));
    var q := ItemsOf(queue, a);
    assert forall n :: n in q ==> n in e && q[n] == e[n] && n !in ReadyItems(e, next);
  }
}
