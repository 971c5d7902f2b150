/** The bookkeeping invariant that core/tx_pool.go relies on but never states: the lookup
    table holds exactly the transactions of all pending and queued lists, and no nonce
    of an account is both pending and queued. Stated and maintained on values here. */
module PoolBooks {
  import opened Transactions

  type Accounts = map<Address, List>

  function ItemsOf(ls: Accounts, a: Address): Items {
    if a in ls then ls[a].items else map[]
  }

  /** The lists are valid, of the given kind, and never empty. */
  ghost predicate WellFormed(ls: Accounts, strict: bool) {
    forall a :: a in ls ==> ls[a].Valid() && ls[a].strict == strict && ls[a].items != map[]
  }

  /** Writes a list back; an emptied list is dropped from the map. */
  function Store(ls: Accounts, a: Address, l: List): Accounts {
    if l.items == map[] then ls - {a} else ls[a := l]
  }

  ghost predicate Has(m: Items, t: Tx) {
    t.nonce in m && m[t.nonce] == t
  }

  /** The transactions of `m` are `a`'s, filed under their nonces, and known. */
  ghost predicate Owned(a: Address, m: Items, all: set<Tx>) {
    forall n :: n in m ==> m[n].from == a && m[n].nonce == n && m[n] in all
  }

  /** The books of one account: pending, queued and in-transit (`limbo`) transactions
      share no nonce and are exactly the known transactions of the account. */
  ghost predicate Account(a: Address, p: Items, q: Items, limbo: Items, all: set<Tx>) {
    && p.Keys !! q.Keys && p.Keys !! limbo.Keys && q.Keys !! limbo.Keys
    && Owned(a, p, all) && Owned(a, q, all) && Owned(a, limbo, all)
    && forall t :: t in all && t.from == a ==> Has(p, t) || Has(q, t) || Has(limbo, t)
  }

  /** The books of the whole pool, with the transactions `limbo` of account `who` in transit. */
  ghost predicate Books(pending: Accounts, queue: Accounts, all: set<Tx>, who: Address, limbo: Items) {
    && WellFormed(pending, true) && WellFormed(queue, false)
    && forall a: Address :: Account(a, ItemsOf(pending, a), ItemsOf(queue, a), if a == who then limbo else map[], all)
  }

  // ---------------------------------------------------------------------
  // Moves within one account

  lemma ToQueue(a: Address, p: Items, q: Items, limbo: Items, all: set<Tx>, n: nat)
    requires Account(a, p, q, limbo, all) && n in limbo
    ensures n !in p && n !in q
    ensures Account(a, p, q[n := limbo[n]], limbo - {n}, all)
  {
  }

  lemma ToPending(a: Address, p: Items, q: Items, limbo: Items, all: set<Tx>, n: nat)
    requires Account(a, p, q, limbo, all) && n in limbo
    ensures n !in p && n !in q
    ensures Account(a, p[n := limbo[n]], q, limbo - {n}, all)
  {
  }

  /** Takes everything but `kept` out of the pending list. */
  lemma OutOfPending(a: Address, p: Items, q: Items, all: set<Tx>, kept: Items)
    requires Account(a, p, q, map[], all)
    requires kept.Keys <= p.Keys && forall n :: n in kept ==> kept[n] == p[n]
    ensures Account(a, kept, q, p - kept.Keys, all)
  {
  }

  /** Takes everything but `kept` out of the queue. */
  lemma OutOfQueue(a: Address, p: Items, q: Items, all: set<Tx>, kept: Items)
    requires Account(a, p, q, map[], all)
    requires kept.Keys <= q.Keys && forall n :: n in kept ==> kept[n] == q[n]
    ensures Account(a, p, kept, q - kept.Keys, all)
  {
  }

  /** Forgets the in-transit transactions outside `kept`. */
  lemma Forget(a: Address, p: Items, q: Items, limbo: Items, all: set<Tx>, kept: Items, gone: set<Tx>)
    requires Account(a, p, q, limbo, all)
    requires kept.Keys <= limbo.Keys && forall n :: n in kept ==> kept[n] == limbo[n]
    requires forall t :: t in gone <==> Has(limbo, t) && t.nonce !in kept
    ensures Account(a, p, q, kept, all - gone)
    ensures forall t :: t in gone ==> t.from == a
  {
    assert forall t :: t in gone ==> t.from == a && t.nonce in limbo;
  }

  lemma ReplacedInQueue(a: Address, p: Items, q: Items, all: set<Tx>, tx: Tx)
    requires Account(a, p, q, map[], all) && tx.from == a && tx !in all
    requires tx.nonce !in p
    ensures tx.nonce in q ==> q[tx.nonce].from == a && q[tx.nonce] in all
    ensures Account(a, p, q[tx.nonce := tx], map[],
                    all - (if tx.nonce in q then {q[tx.nonce]} else {}) + {tx})
  {
  }

  lemma ReplacedInPending(a: Address, p: Items, q: Items, all: set<Tx>, tx: Tx)
    requires Account(a, p, q, map[], all) && tx.from == a && tx !in all
    requires tx.nonce in p
    ensures p[tx.nonce].from == a && p[tx.nonce] in all
    ensures Account(a, p[tx.nonce := tx], q, map[], all - {p[tx.nonce]} + {tx})
  {
  }

  // ---------------------------------------------------------------------
  // From one account to the pool

  /** Two pools whose other accounts agree. */
  ghost predicate SameElsewhere(a: Address, ls: Accounts, ls': Accounts) {
    forall b :: b != a ==> ItemsOf(ls, b) == ItemsOf(ls', b)
  }

  /** Changing one account keeps the books if it keeps that account's books. */
  lemma EditAccount(pending: Accounts, queue: Accounts, all: set<Tx>, a: Address, limbo: Items,
                    pending': Accounts, queue': Accounts, all': set<Tx>, limbo': Items)
    requires Books(pending, queue, all, a, limbo)
    requires WellFormed(pending', true) && WellFormed(queue', false)
    requires SameElsewhere(a, pending, pending') && SameElsewhere(a, queue, queue')
    requires forall t: Tx :: t.from != a ==> (t in all <==> t in all')
    requires Account(a, ItemsOf(pending', a), ItemsOf(queue', a), limbo', all')
    ensures Books(pending', queue', all', a, limbo')
  {
    forall b: Address
      ensures Account(b, ItemsOf(pending', b), ItemsOf(queue', b), if b == a then limbo' else map[], all')
    {
      if b != a {
        OtherAccount(b, ItemsOf(pending, b), ItemsOf(queue, b), all, all');
      }
    }
  }

  lemma OtherAccount(b: Address, p: Items, q: Items, all: set<Tx>, all': set<Tx>)
    requires Account(b, p, q, map[], all) && forall t: Tx :: t.from == b ==> (t in all <==> t in all')
    ensures Account(b, p, q, map[], all')
  {
  }

  lemma StoreKeeps(ls: Accounts, a: Address, l: List, strict: bool)
    requires WellFormed(ls, strict) && l.Valid() && l.strict == strict
    ensures WellFormed(Store(ls, a, l), strict) && SameElsewhere(a, ls, Store(ls, a, l))
    ensures ItemsOf(Store(ls, a, l), a) == l.items
  {
  }

  /** With nothing in transit it does not matter whose transit is empty. */
  lemma NobodyInTransit(pending: Accounts, queue: Accounts, all: set<Tx>, a: Address, b: Address)
    requires Books(pending, queue, all, a, map[])
    ensures Books(pending, queue, all, b, map[])
  {
  }

  /** The books of one account, read off the books of the pool. */
  lemma AccountOf(pending: Accounts, queue: Accounts, all: set<Tx>, a: Address, limbo: Items)
    requires Books(pending, queue, all, a, limbo)
    ensures Account(a, ItemsOf(pending, a), ItemsOf(queue, a), limbo, all)
  {
  }

  /** A known transaction sits in exactly one list of its sender, so looking it up by
      nonce finds it and nothing else. */
  lemma FoundByNonce(pending: Accounts, queue: Accounts, all: set<Tx>, who: Address, t: Tx)
    requires Books(pending, queue, all, who, map[]) && t in all
    ensures Has(ItemsOf(pending, t.from), t) <==> t.nonce in ItemsOf(pending, t.from)
    ensures Has(ItemsOf(queue, t.from), t) <==> t.nonce in ItemsOf(queue, t.from)
    ensures t.nonce in ItemsOf(pending, t.from) <==> t.nonce !in ItemsOf(queue, t.from)
  {
    assert Account(t.from, ItemsOf(pending, t.from), ItemsOf(queue, t.from), map[], all);
  }

  function ValuesOf(m: Items): set<Tx> {
    set n | n in m :: m[n]
  }

  lemma {:induction false} ValuesSize(m: Items)
    requires Keyed(m)
    ensures |ValuesOf(m)| == |m|
    decreases |m|
  {
    if m != map[] {
      var n :| n in m;
      var r := m - {n};
      assert m.Keys == r.Keys + {n};
      ValuesSize(r);
      assert ValuesOf(m) == ValuesOf(r) + {m[n]};
      assert m[n] !in ValuesOf(r);
    }
  }

  /** The queue of `a` is replaced by a part of it; another part goes into transit, and
      what is in neither is forgotten. */
  lemma ShrinkQueue(pending: Accounts, queue: Accounts, all: set<Tx>, a: Address, l: List, limbo: Items)
    requires Books(pending, queue, all, a, map[]) && a in queue
    requires l.Valid() && !l.strict && PartsOf(l.items, limbo, queue[a].items)
    ensures Books(pending, Store(queue, a, l), all - ValuesOf(queue[a].items - l.items.Keys - limbo.Keys), a, limbo)
    ensures SameElsewhere(a, queue, Store(queue, a, l)) && ItemsOf(Store(queue, a, l), a) == l.items
  {
    hide Account;
    var p, q := ItemsOf(pending, a), queue[a].items;
    AccountOf(pending, queue, all, a, map[]);
    StoreKeeps(queue, a, l, false);
    OutOfQueue(a, p, q, all, l.items);
    ForgetRest(a, p, l.items, q - l.items.Keys, all, limbo);
    EditAccount(pending, queue, all, a, map[], pending, Store(queue, a, l),
                all - ValuesOf(q - l.items.Keys - limbo.Keys), limbo);
  }

  /** The same for the pending list of `a`. */
  lemma ShrinkPending(pending: Accounts, queue: Accounts, all: set<Tx>, a: Address, l: List, limbo: Items)
    requires Books(pending, queue, all, a, map[]) && a in pending
    requires l.Valid() && l.strict && PartsOf(l.items, limbo, pending[a].items)
    ensures Books(Store(pending, a, l), queue, all - ValuesOf(pending[a].items - l.items.Keys - limbo.Keys), a, limbo)
    ensures SameElsewhere(a, pending, Store(pending, a, l)) && ItemsOf(Store(pending, a, l), a) == l.items
  {
    hide Account;
    var p, q := pending[a].items, ItemsOf(queue, a);
    AccountOf(pending, queue, all, a, map[]);
    StoreKeeps(pending, a, l, true);
    OutOfPending(a, p, q, all, l.items);
    ForgetRest(a, l.items, q, p - l.items.Keys, all, limbo);
    EditAccount(pending, queue, all, a, map[], Store(pending, a, l), queue,
                all - ValuesOf(p - l.items.Keys - limbo.Keys), limbo);
  }

  /** Two disjoint parts of a collection. */
  ghost predicate PartsOf(x: Items, y: Items, m: Items) {
    && x.Keys !! y.Keys && x.Keys <= m.Keys && y.Keys <= m.Keys
    && (forall n :: n in x ==> x[n] == m[n]) && (forall n :: n in y ==> y[n] == m[n])
  }

  lemma ForgetRest(a: Address, p: Items, q: Items, limbo: Items, all: set<Tx>, kept: Items)
    requires Account(a, p, q, limbo, all)
    requires kept.Keys <= limbo.Keys && forall n :: n in kept ==> kept[n] == limbo[n]
    ensures Account(a, p, q, kept, all - ValuesOf(limbo - kept.Keys))
    ensures forall t :: t in ValuesOf(limbo - kept.Keys) ==> t.from == a
  {
    var gone := ValuesOf(limbo - kept.Keys);
    forall t ensures t in gone <==> Has(limbo, t) && t.nonce !in kept {
      if Has(limbo, t) && t.nonce !in kept { assert (limbo - kept.Keys)[t.nonce] == t; }
    }
    Forget(a, p, q, limbo, all, kept, gone);
  }

  // ---------------------------------------------------------------------
  // Counting

  /** The number of transactions in the lists of the given accounts. */
  ghost function TotalOf(ls: Accounts, on: set<Address>): nat {
    if on == {} then 0 else var a :| a in on; |ItemsOf(ls, a)| + TotalOf(ls, on - {a})
  }

  ghost function Total(ls: Accounts): nat { TotalOf(ls, ls.Keys) }

  lemma {:induction false} TotalOfMinus(ls: Accounts, on: set<Address>, a: Address)
    requires a in on
    ensures TotalOf(ls, on) == |ItemsOf(ls, a)| + TotalOf(ls, on - {a})
    decreases |on|
  {
    var b :| b in on && TotalOf(ls, on) == |ItemsOf(ls, b)| + TotalOf(ls, on - {b});
    if b != a {
      TotalOfMinus(ls, on - {b}, a);
      TotalOfMinus(ls, on - {a}, b);
      assert on - {b} - {a} == on - {a} - {b};
    }
  }

  lemma {:induction false} TotalOfSame(ls: Accounts, ls': Accounts, on: set<Address>)
    requires forall a :: a in on ==> |ItemsOf(ls, a)| == |ItemsOf(ls', a)|
    ensures TotalOf(ls, on) == TotalOf(ls', on)
    decreases |on|
  {
    if on != {} {
      var a :| a in on;
      TotalOfMinus(ls, on, a);
      TotalOfMinus(ls', on, a);
      TotalOfSame(ls, ls', on - {a});
    }
  }

  /** The total moves with the one list that is written back. */
  lemma TotalStore(ls: Accounts, a: Address, l: List)
    requires a in ls
    ensures Total(Store(ls, a, l)) == Total(ls) - |ls[a].items| + |l.items|
  {
    TotalOfMinus(ls, ls.Keys, a);
    var ls' := Store(ls, a, l);
    TotalOfSame(ls, ls', ls.Keys - {a});
    if l.items != map[] {
      assert ls'.Keys == ls.Keys;
      TotalOfMinus(ls', ls'.Keys, a);
    } else {
      assert ls'.Keys == ls.Keys - {a};
    }
  }
}
