/** Transactions as the pool sees them, and the plain (heap-free) meaning of a
    per-account transaction list. */
module Transactions {
  type Address = nat

  datatype Option<+T> = None | Some(value: T)

  const TX_SLOT_SIZE: nat := 32 * 1024
  const TX_MAX_SIZE: nat := 4 * TX_SLOT_SIZE

  /** The fork rules that decide what is accepted. */
  datatype Forks = Forks(eip2718: bool, istanbul: bool)

  /** What only validation looks at: the type, the sign of the value, the signature, and the
      intrinsic gas before and after Istanbul, nothing if it overflows. */
  datatype Payload = Payload(legacy: bool, negative: bool, signed: bool,
                             frontierGas: Option<nat>, istanbulGas: Option<nat>)
  {
    function IntrinsicGas(forks: Forks): Option<nat> { if forks.istanbul then istanbulGas else frontierGas }
  }

  /** Encoded transactions have at least one byte. */
  type Size = n: nat | n > 0 witness 1

  /** Hashes are taken to be free of collisions, so a transaction is its own hash; `id`
      stands for whatever else goes into the hash. */
  datatype Tx = Tx(id: nat, from: Address, nonce: nat, price: nat, gas: nat,
                   value: nat, size: Size, payload: Payload)
  {
    function Cost(): nat { price * gas + value }
    function Slots(): nat { (size + TX_SLOT_SIZE - 1) / TX_SLOT_SIZE }
  }

  /** As many slots of 32 KB as it takes and no more, hence one to four for what is allowed. */
  lemma SlotsFit(tx: Tx)
    ensures 32768 * (tx.Slots() - 1) < tx.size <= 32768 * tx.Slots()
    ensures tx.size <= TX_MAX_SIZE ==> 1 <= tx.Slots() <= 4
  {
  }

  function SetOf(s: seq<Tx>): set<Tx> { set t | t in s }

  // ---------------------------------------------------------------------
  // Nonce-indexed collections

  type Items = map<nat, Tx>

  ghost predicate Keyed(m: Items) {
    forall n :: n in m ==> m[n].nonce == n
  }

  /** `s` lists the transactions of `m`, each once, in some order. */
  ghost predicate Lists(s: seq<Tx>, m: Items) {
    && Keyed(m) && |s| == |m|
    && (forall i :: 0 <= i < |s| ==> s[i].nonce in m && m[s[i].nonce] == s[i])
    && (forall i, j :: 0 <= i < j < |s| ==> s[i].nonce != s[j].nonce)
  }

  ghost predicate Increasing(s: seq<Tx>) {
    forall i, j :: 0 <= i < j < |s| ==> s[i].nonce < s[j].nonce
  }

  /** `s` is the nonce-sorted listing of `m`. */
  ghost predicate SortedListing(s: seq<Tx>, m: Items) {
    Lists(s, m) && Increasing(s)
  }

  function Below(m: Items, bound: nat): Items {
    map n | n in m && n < bound :: m[n]
  }

  function AtLeast(m: Items, bound: nat): Items {
    map n | n in m && n >= bound :: m[n]
  }

  function Where(m: Items, p: Tx -> bool): Items {
    map n | n in m && p(m[n]) :: m[n]
  }

  function Without(m: Items, p: Tx -> bool): Items {
    map n | n in m && !p(m[n]) :: m[n]
  }

  /** The nonces from `lo` up to but excluding `hi` are exactly the keys of `m`. */
  ghost predicate Gapless(m: Items, lo: nat, hi: nat) {
    lo <= hi && forall n :: n in m <==> lo <= n < hi
  }

  /** `kept` are the `k` transactions of `m` with the lowest nonces (all of `m` if it has fewer). */
  ghost predicate LowestOf(kept: Items, m: Items, k: nat) {
    && kept.Keys <= m.Keys
    && (forall n :: n in kept ==> kept[n] == m[n])
    && (forall n, d :: n in kept && d in m && d !in kept ==> n < d)
    && |kept| == if |m| <= k then |m| else k
  }

  /** Every nonce between one held by `m` and `n` is held by `m`. */
  predicate NoGapBelow(m: Items, n: nat) {
    forall k, i :: k in m && k <= i <= n ==> i in m
  }

  /** The transactions Ready hands out: the maximal run from the least nonce,
      provided that nonce is not past `start`. */
  function ReadyItems(m: Items, start: nat): Items {
    if exists k :: k in m && k <= start then map n | n in m && NoGapBelow(m, n) :: m[n] else map[]
  }

  /** Cutting off the last listed transaction takes it out of the collection. */
  lemma ListingButLast(s: seq<Tx>, m: Items)
    requires Lists(s, m) && s != []
    ensures Lists(s[..|s| - 1], m - {s[|s| - 1].nonce})
    ensures m.Keys == (m - {s[|s| - 1].nonce}).Keys + {s[|s| - 1].nonce}
  {
  }

  /** A listing misses nothing. */
  lemma {:induction false} ListingCovers(s: seq<Tx>, m: Items, n: nat) returns (i: nat)
    requires Lists(s, m) && n in m
    ensures i < |s| && s[i] == m[n]
  {
    if s[|s| - 1].nonce == n {
      i := |s| - 1;
    } else {
      ListingButLast(s, m);
      i := ListingCovers(s[..|s| - 1], m - {s[|s| - 1].nonce}, n);
    }
  }

  /** The last of a sorted listing is the transaction with the highest nonce. */
  lemma LastIsHighest(s: seq<Tx>, m: Items)
    requires SortedListing(s, m) && s != []
    ensures forall n :: n in m ==> n <= s[|s| - 1].nonce
  {
    forall n | n in m ensures n <= s[|s| - 1].nonce { var i := ListingCovers(s, m, n); }
  }

  /** A collection has only one nonce-sorted listing. */
  lemma {:induction false} SortedListingUnique(s: seq<Tx>, t: seq<Tx>, m: Items)
    requires SortedListing(s, m) && SortedListing(t, m)
    ensures s == t
  {
    if s != [] {
      LastIsHighest(s, m);
      LastIsHighest(t, m);
      ListingButLast(s, m);
      ListingButLast(t, m);
      var k := |s| - 1;
      SortedListingUnique(s[..k], t[..k], m - {s[k].nonce});
      calc { s; s[..k] + [s[k]]; t[..k] + [t[k]]; t; }
    }
  }

  /** What is kept by a cap is determined by the cap. */
  lemma LowestUnique(a: Items, b: Items, m: Items, k: nat)
    requires LowestOf(a, m, k) && LowestOf(b, m, k)
    ensures a == b
  {
    if a.Keys <= b.Keys {
      SubsetOfSameSize(a.Keys, b.Keys);
    } else {
      var x :| x in a.Keys && x !in b.Keys;
      forall y | y in b.Keys ensures y in a.Keys { assert y < x; }
      SubsetOfSameSize(b.Keys, a.Keys);
    }
  }

  lemma SubsetSize<T>(a: set<T>, b: set<T>)
    requires a <= b
    ensures |a| <= |b|
  {
    assert b == a + (b - a);
  }

  lemma SubsetOfSameSize<T>(a: set<T>, b: set<T>)
    requires a <= b && |a| == |b|
    ensures a == b
  {
    assert b == a + (b - a);
  }

  // ---------------------------------------------------------------------
  // The meaning of a txList

  datatype List = List(strict: bool, items: Items, costcap: nat, gascap: nat)
  {
    ghost predicate Valid() {
      && Keyed(items)
      && forall n :: n in items ==> items[n].Cost() <= costcap && items[n].gas <= gascap
    }
  }

  function Max(a: nat, b: nat): nat { if a < b then b else a }

  const NEW_PENDING := List(true, map[], 0, 0)
  const NEW_QUEUE := List(false, map[], 0, 0)

  /** A replacement must beat the old price, and beat it by `bump` percent. */
  predicate Outbids(tx: Tx, prev: Tx, bump: nat) {
    prev.price < tx.price && prev.price * (100 + bump) / 100 <= tx.price
  }

  predicate Accepts(l: List, tx: Tx, bump: nat) {
    tx.nonce in l.items ==> Outbids(tx, l.items[tx.nonce], bump)
  }

  /** The list after an accepted transaction. */
  function Added(l: List, tx: Tx): List {
    l.(items := l.items[tx.nonce := tx], costcap := Max(l.costcap, tx.Cost()), gascap := Max(l.gascap, tx.gas))
  }

  predicate TooExpensive(tx: Tx, cost: nat, gas: nat) {
    tx.gas > gas || tx.Cost() > cost
  }

  function Expensive(cost: nat, gas: nat): Tx -> bool {
    (tx: Tx) => TooExpensive(tx, cost, gas)
  }

  function After(nonce: nat): Tx -> bool {
    (tx: Tx) => tx.nonce > nonce
  }

  /** What a full filtering pass would drop. */
  function Unpayable(l: List, cost: nat, gas: nat): Items {
    Where(l.items, Expensive(cost, gas))
  }

  /** What a strict list must give up besides: everything after the first drop. */
  function Invalidated(l: List, cost: nat, gas: nat): Items {
    var drops := Unpayable(l, cost, gas);
    map n | n in l.items && n !in drops && l.strict && (exists d :: d in drops && d < n) :: l.items[n]
  }

  function Filtered(l: List, cost: nat, gas: nat): List {
    if l.costcap <= cost && l.gascap <= gas then l
    else List(l.strict, l.items - Unpayable(l, cost, gas).Keys - Invalidated(l, cost, gas).Keys, cost, gas)
  }
}
