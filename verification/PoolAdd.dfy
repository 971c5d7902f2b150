/** Adding transactions in core/tx_pool.go as a relation between lookup tables: what is
    evicted, what is replaced, what is accepted and with which error. */
module PoolAdd {
  import opened Transactions
  import opened TxLookups
  import opened TxPricedLists

  datatype AddError = NoError | AlreadyKnown | TxTypeNotSupported | OversizedData | NegativeValue | GasLimit
                    | InvalidSender | Underpriced | NonceTooLow | InsufficientFunds | GasUintOverflow | IntrinsicGas
                    | PoolOverflow | ReplaceUnderpriced

  /** The lookup table and the accounts taken for local. */
  datatype Table = Table(locals: set<Tx>, remotes: set<Tx>, accounts: set<Address>) {
    function All(): set<Tx> { locals + remotes }
  }

  /** What the verdict on a transaction depends on besides the table. */
  datatype Context = Context(state: ChainState, maxGas: nat, forks: Forks, gasPrice: nat, bump: nat, capacity: nat)

  /** validateTx */
  function Validate(c: Context, tx: Tx, local: bool): AddError {
    if !c.forks.eip2718 && !tx.payload.legacy then TxTypeNotSupported
    else if tx.size > TX_MAX_SIZE then OversizedData
    else if tx.payload.negative then NegativeValue
    else if c.maxGas < tx.gas then GasLimit
    else if !tx.payload.signed then InvalidSender
    else if !local && tx.price < c.gasPrice then Underpriced
    else if c.state.NonceOf(tx.from) > tx.nonce then NonceTooLow
    else if c.state.BalanceOf(tx.from) < tx.Cost() then InsufficientFunds
    else match tx.payload.IntrinsicGas(c.forks)
      case None => GasUintOverflow
      case Some(gas) => if tx.gas < gas then IntrinsicGas else NoError
  }

  /** Whether a transaction would overfill the pool; counts transactions, not slots. */
  ghost predicate Full(c: Context, t: Table, tx: Tx) {
    |t.All()| + tx.Slots() > c.capacity
  }

  /** The slots to be freed for a transaction. */
  ghost function Needed(c: Context, t: Table, tx: Tx): int {
    SumSlots(t.All()) - c.capacity + tx.Slots()
  }

  /** There are remote transactions, and none is cheaper than `tx`. */
  ghost predicate NoneCheaper(remotes: set<Tx>, tx: Tx) {
    remotes != {} && forall r :: r in remotes ==> r.price >= tx.price
  }

  /** `out` are some of the cheapest of `remotes`, and without one of them they would free
      fewer than `slots` slots. */
  ghost predicate CheapestFor(remotes: set<Tx>, out: set<Tx>, slots: int) {
    && out <= remotes
    && (forall r, d :: r in remotes && r !in out && d in out ==> !PriceLess(r, d))
    && (out != {} ==> exists d :: d in out && SumSlots(out - {d}) < slots)
  }

  /** The eviction step: refused as underpriced, refused because all remotes together would
      not make room, or done with the cheapest ones gone. */
  ghost predicate Evicts(c: Context, t: Table, tx: Tx, isLocal: bool, err: AddError, out: set<Tx>) {
    if !Full(c, t, tx) then err == NoError && out == {}
    else if !isLocal && NoneCheaper(t.remotes, tx) then err == Underpriced && out == {}
    else if err == PoolOverflow then !isLocal && out == {} && SumSlots(t.remotes) < Needed(c, t, tx)
    else err == NoError && CheapestFor(t.remotes, out, Needed(c, t, tx)) && (out == {} ==> isLocal && t.remotes == {})
  }

  /** The evicted ones make room, or all remotes are gone for a local transaction. */
  ghost predicate Frees(c: Context, t: Table, tx: Tx, isLocal: bool, err: AddError, out: set<Tx>) {
    err == NoError && Full(c, t, tx) ==> SumSlots(out) >= Needed(c, t, tx) || (isLocal && out == t.remotes)
  }

  /** The transactions of the same sender and nonce. */
  function Rivals(all: set<Tx>, tx: Tx): set<Tx> {
    set t | t in all && t.from == tx.from && t.nonce == tx.nonce
  }

  ghost predicate BeatsRivals(all: set<Tx>, tx: Tx, bump: nat) {
    forall t :: t in Rivals(all, tx) ==> Outbids(tx, t, bump)
  }

  /** The table once the transaction is in. A sender becomes local with its first local
      transaction, unless that one replaced a pending one (`hit`). */
  function Accepting(t: Table, tx: Tx, local: bool, hit: bool): Table {
    var isLocal := local || tx.from in t.accounts;
    var rivals := Rivals(t.All(), tx);
    var locals, remotes := t.locals - rivals + (if isLocal then {tx} else {}),
      t.remotes - rivals + (if isLocal then {} else {tx});
    if local && !hit && tx.from !in t.accounts
    then var accounts := t.accounts + {tx.from};
         Table(locals + SentBy(remotes, accounts), remotes - SentBy(remotes, accounts), accounts)
    else Table(locals, remotes, t.accounts)
  }

  function SentBy(txs: set<Tx>, accounts: set<Address>): set<Tx> {
    set t | t in txs && t.from in accounts
  }

  function Evicted(t: Table, out: set<Tx>): Table {
    t.(remotes := t.remotes - out)
  }

  /** add: verdict and table, given which transactions were evicted and whether the nonce was
      pending when the transaction was placed. */
  ghost predicate Adds(c: Context, t: Table, tx: Tx, local: bool, err: AddError, out: set<Tx>, hit: bool, t': Table) {
    var isLocal := local || tx.from in t.accounts;
    if tx in t.All() then err == AlreadyKnown && out == {} && t' == t
    else if Validate(c, tx, isLocal) != NoError then err == Validate(c, tx, isLocal) && out == {} && t' == t
    else if err == Underpriced || err == PoolOverflow then Evicts(c, t, tx, isLocal, err, out) && t' == t
    else
      && Evicts(c, t, tx, isLocal, NoError, out)
      && if BeatsRivals(Evicted(t, out).All(), tx, c.bump)
         then err == NoError && t' == Accepting(Evicted(t, out), tx, local, hit)
         else err == ReplaceUnderpriced && t' == Evicted(t, out)
  }

  // ---------------------------------------------------------------------
  // Batches

  /** addTxsLocked: one table after the other. */
  datatype Batch = Batch(tables: seq<Table>, errs: seq<AddError>, outs: seq<set<Tx>>, hits: seq<bool>)

  ghost predicate AddsAll(c: Context, txs: seq<Tx>, local: bool, b: Batch) {
    && |b.tables| == |txs| + 1 && |b.errs| == |b.outs| == |b.hits| == |txs|
    && forall i :: 0 <= i < |txs| ==>
       Adds(c, b.tables[i], txs[i], local, b.errs[i], b.outs[i], b.hits[i], b.tables[i + 1])
  }

  ghost function Union(outs: seq<set<Tx>>): set<Tx> {
    if outs == [] then {} else Union(outs[..|outs| - 1]) + outs[|outs| - 1]
  }

  /** The last table of a batch that starts with `t`. */
  ghost predicate Leads(c: Context, t: Table, txs: seq<Tx>, local: bool, b: Batch, t': Table) {
    AddsAll(c, txs, local, b) && b.tables[0] == t && b.tables[|txs|] == t'
  }

  /** Re-injecting `txs` as remote transactions may lead from `t` to `t'`. */
  ghost predicate Reinjects(c: Context, t: Table, txs: seq<Tx>, t': Table) {
    exists b :: Leads(c, t, txs, false, b, t')
  }

  /** A transaction that the state has left behind. */
  ghost predicate Outdated(c: Context, t: Tx) {
    t.nonce < c.state.NonceOf(t.from)
  }

  /** An outdated transaction stays in the table unless it is evicted, and never comes back. */
  lemma OutdatedStep(c: Context, t: Table, tx: Tx, err: AddError, out: set<Tx>, hit: bool, t': Table, x: Tx)
    requires Adds(c, t, tx, false, err, out, hit, t') && Outdated(c, x) && t.locals !! t.remotes
    ensures x in t'.All() <==> x in t.All() && x !in out
    ensures out <= t.remotes && t'.locals !! t'.remotes
    ensures x in t'.remotes ==> x in t.remotes
  {
    hide Evicts, BeatsRivals;
    EvictsRemotes(c, t, tx, tx.from in t.accounts, err, out);
    if err == NoError { assert x != tx && x !in Rivals(Evicted(t, out).All(), tx); }
  }

  lemma EvictsRemotes(c: Context, t: Table, tx: Tx, isLocal: bool, err: AddError, out: set<Tx>)
    ensures Evicts(c, t, tx, isLocal, err, out) ==> out <= t.remotes && (err != NoError ==> out == {})
    ensures Evicts(c, t, tx, isLocal, NoError, out) ==> out <= t.remotes
  {
  }

  /** The table keeps locals and remotes apart and grows by one at most. */
  lemma AddsOne(c: Context, t: Table, tx: Tx, err: AddError, out: set<Tx>, hit: bool, t': Table)
    requires Adds(c, t, tx, false, err, out, hit, t') && t.locals !! t.remotes
    ensures t'.locals !! t'.remotes && t'.accounts == t.accounts && |t'.All()| <= |t.All()| + 1
    ensures t'.All() <= t.All() + {tx} && t'.remotes <= t.remotes - out + {tx} && out <= t.remotes
  {
    hide Adds, Accepting;
    AddsShape(c, t, tx, false, err, out, hit, t');
    AcceptsOne(Evicted(t, out), tx, hit);
    assert t'.All() <= t.All() + {tx};
    AtMostOneMore(t.All(), t'.All(), tx);
  }

  /** A table after add is the old one, the old one less the evicted, or that with `tx` in. */
  lemma AddsShape(c: Context, t: Table, tx: Tx, local: bool, err: AddError, out: set<Tx>, hit: bool, t': Table)
    requires Adds(c, t, tx, local, err, out, hit, t')
    ensures out <= t.remotes
    ensures t' == Evicted(t, out) || (tx !in t.All() && t' == Accepting(Evicted(t, out), tx, local, hit))
  {
    hide Evicts, BeatsRivals, Accepting, Validate;
    EvictsRemotes(c, t, tx, local || tx.from in t.accounts, err, out);
    if out == {} { assert t.remotes - out == t.remotes; }
  }

  lemma AcceptsOne(t: Table, tx: Tx, hit: bool)
    requires t.locals !! t.remotes
    ensures var t' := Accepting(t, tx, false, hit);
      && (tx !in t.All() ==> t'.locals !! t'.remotes) && t'.accounts == t.accounts
      && t'.locals <= t.locals + {tx} && t'.remotes <= t.remotes + {tx}
  {
  }

  lemma AtMostOneMore(all: set<Tx>, all': set<Tx>, tx: Tx)
    requires all' <= all + {tx}
    ensures |all'| <= |all| + 1
  {
    SubsetSize(all', all + {tx});
  }

  /** The first `i` transactions of a batch. */
  function Prefix(b: Batch, i: nat): Batch
    requires i < |b.tables| && i <= |b.errs| && i <= |b.outs| && i <= |b.hits|
  {
    Batch(b.tables[..i + 1], b.errs[..i], b.outs[..i], b.hits[..i])
  }

  lemma PrefixAdds(c: Context, txs: seq<Tx>, local: bool, b: Batch, i: nat)
    requires AddsAll(c, txs, local, b) && i <= |txs|
    ensures AddsAll(c, txs[..i], local, Prefix(b, i))
  {
    hide Adds;
  }

  /** What holds throughout the re-injection of `n` transactions `s` of which `out` were evicted
      on the way: the table grew by at most one each time, evicted ones were remote or
      re-injected, and an outdated transaction is in the table exactly until it is evicted. */
  ghost predicate Reached(c: Context, t: Table, s: set<Tx>, n: nat, out: set<Tx>, x: Tx, t': Table) {
    && t.locals !! t.remotes && t'.locals !! t'.remotes && t'.accounts == t.accounts && |t'.All()| <= |t.All()| + n
    && out <= t.remotes + s && t'.All() <= t.All() + s && t'.remotes <= t.remotes + s
    && (Outdated(c, x) ==>
        && (x in t'.All() <==> x in t.All() && x !in out) && (x in out || x in t'.remotes ==> x in t.remotes))
  }

  lemma ReachedStep(c: Context, t: Table, s: set<Tx>, n: nat, out: set<Tx>, x: Tx, t1: Table, tx: Tx, err: AddError,
                    o: set<Tx>, hit: bool, t2: Table)
    requires Reached(c, t, s, n, out, x, t1) && Adds(c, t1, tx, false, err, o, hit, t2)
    ensures Reached(c, t, s + {tx}, n + 1, out + o, x, t2)
  {
    hide Adds, Outdated, Table.All;
    AddsOne(c, t1, tx, err, o, hit, t2);
    if Outdated(c, x) { OutdatedStep(c, t1, tx, err, o, hit, t2, x); }
    RemotesKnown(t1);
  }

  lemma RemotesKnown(t: Table)
    ensures t.remotes <= t.All()
  {
  }

  lemma {:induction false} BatchReaches(c: Context, txs: seq<Tx>, b: Batch, x: Tx)
    requires AddsAll(c, txs, false, b) && b.tables[0].locals !! b.tables[0].remotes
    ensures Reached(c, b.tables[0], SetOf(txs), |txs|, Union(b.outs), x, b.tables[|txs|])
    decreases |txs|
  {
    hide Adds, Reached;
    if txs == [] {
      ReachedStart(c, b.tables[0], x);
    } else {
      var k := |txs| - 1;
      PrefixAdds(c, txs, false, b, k);
      BatchReaches(c, txs[..k], Prefix(b, k), x);
      LastOf(txs);
      ReachedStep(c, b.tables[0], SetOf(txs[..k]), k, Union(b.outs[..k]), x, b.tables[k], txs[k], b.errs[k], b.outs[k],
                  b.hits[k], b.tables[k + 1]);
    }
  }

  lemma ReachedStart(c: Context, t: Table, x: Tx)
    requires t.locals !! t.remotes
    ensures Reached(c, t, SetOf([]), 0, {}, x, t)
  {
  }

  lemma LastOf(txs: seq<Tx>)
    requires txs != []
    ensures SetOf(txs) == SetOf(txs[..|txs| - 1]) + {txs[|txs| - 1]}
  {
    assert txs == txs[..|txs| - 1] + [txs[|txs| - 1]];
  }

  // ---------------------------------------------------------------------
  // What a re-injection evicts

  /** Each transaction is refused on sight or fits however many came before it. */
  ghost predicate RoomForAll(c: Context, t: Table, txs: seq<Tx>) {
    forall i :: 0 <= i < |txs| ==>
      Validate(c, txs[i], txs[i].from in t.accounts) != NoError || |t.All()| + i + txs[i].Slots() <= c.capacity
  }

  /** With room for all of them nothing is evicted. */
  lemma {:induction false} RoomMeansNoEviction(c: Context, txs: seq<Tx>, b: Batch)
    requires AddsAll(c, txs, false, b) && b.tables[0].locals !! b.tables[0].remotes && RoomForAll(c, b.tables[0], txs)
    ensures Union(b.outs) == {}
    decreases |txs|
  {
    hide Adds, Reached, Tx.Slots, Validate;
    if txs != [] {
      var k := |txs| - 1;
      PrefixAdds(c, txs, false, b, k);
      assert RoomForAll(c, b.tables[0], txs[..k]);
      RoomMeansNoEviction(c, txs[..k], Prefix(b, k));
      BatchReaches(c, txs[..k], Prefix(b, k), txs[k]);
      ReachedSize(c, b.tables[0], SetOf(txs[..k]), k, Union(b.outs[..k]), txs[k], b.tables[k]);
      RoomStep(c, b.tables[k], txs[k], b.errs[k], b.outs[k], b.hits[k], b.tables[k + 1]);
    }
  }

  lemma ReachedSize(c: Context, t: Table, s: set<Tx>, n: nat, out: set<Tx>, x: Tx, t': Table)
    requires Reached(c, t, s, n, out, x, t')
    ensures |t'.All()| <= |t.All()| + n && t'.accounts == t.accounts && t'.locals !! t'.remotes
  {
  }

  lemma RoomStep(c: Context, t: Table, tx: Tx, err: AddError, out: set<Tx>, hit: bool, t': Table)
    requires Adds(c, t, tx, false, err, out, hit, t')
    requires Validate(c, tx, tx.from in t.accounts) != NoError || |t.All()| + tx.Slots() <= c.capacity
    ensures out == {}
  {
  }

  /** Nothing that stays throughout is cheaper than anything evicted on the way. */
  lemma {:induction false} EvictedAreCheapest(c: Context, txs: seq<Tx>, b: Batch, r: Tx, d: Tx)
    requires AddsAll(c, txs, false, b) && b.tables[0].locals !! b.tables[0].remotes
    requires r in b.tables[|txs|].remotes && r !in SetOf(txs) && d in Union(b.outs)
    ensures r in b.tables[0].remotes && !PriceLess(r, d)
    decreases |txs|
  {
    hide Adds, Reached, PriceLess;
    var k := |txs| - 1;
    assert txs != [];
    PrefixAdds(c, txs, false, b, k);
    BatchReaches(c, txs[..k], Prefix(b, k), d);
    ReachedSize(c, b.tables[0], SetOf(txs[..k]), k, Union(b.outs[..k]), d, b.tables[k]);
    LastOf(txs);
    AddsOne(c, b.tables[k], txs[k], b.errs[k], b.outs[k], b.hits[k], b.tables[k + 1]);
    StillRemote(c, b.tables[0], SetOf(txs[..k]), k, Union(b.outs[..k]), d, b.tables[k], r);
    if d in b.outs[k] {
      CheapestOfStep(c, b.tables[k], txs[k], b.errs[k], b.outs[k], b.hits[k], b.tables[k + 1], r, d);
    } else {
      EvictedAreCheapest(c, txs[..k], Prefix(b, k), r, d);
    }
  }

  lemma StillRemote(c: Context, t: Table, s: set<Tx>, n: nat, out: set<Tx>, x: Tx, t': Table, r: Tx)
    requires Reached(c, t, s, n, out, x, t') && r in t'.remotes && r !in s
    ensures r in t.remotes
  {
  }

  lemma CheapestOfStep(c: Context, t: Table, tx: Tx, err: AddError, out: set<Tx>, hit: bool, t': Table, r: Tx, d: Tx)
    requires Adds(c, t, tx, false, err, out, hit, t') && d in out && r in t.remotes && r !in out
    ensures !PriceLess(r, d)
  {
    hide PriceLess;
  }

  /** The first transaction that is not refused on sight finds the pool full, with `x` strictly
      the cheapest remote one, and enough remotes to make room. */
  ghost predicate MustEvict(c: Context, t: Table, txs: seq<Tx>, i: nat, x: Tx) {
    && i < |txs| && (forall k :: 0 <= k < i ==> RefusedOnSight(c, t, txs[k]))
    && var y := txs[i];
    && !RefusedOnSight(c, t, y) && y.from !in t.accounts && Full(c, t, y) && SumSlots(t.remotes) >= Needed(c, t, y)
    && x in t.remotes && x.price < y.price && forall r :: r in t.remotes ==> r == x || PriceLess(x, r)
  }

  ghost predicate RefusedOnSight(c: Context, t: Table, tx: Tx) {
    tx in t.All() || Validate(c, tx, tx.from in t.accounts) != NoError
  }

  lemma {:induction false} RefusedChangeNothing(c: Context, txs: seq<Tx>, b: Batch, i: nat)
    requires AddsAll(c, txs, false, b) && i <= |txs| && forall k :: 0 <= k < i ==>
      RefusedOnSight(c, b.tables[0], txs[k])
    ensures b.tables[i] == b.tables[0]
    decreases i
  {
    hide Evicts, Accepting, BeatsRivals, Validate;
    if i > 0 {
      RefusedChangeNothing(c, txs, b, i - 1);
      assert RefusedOnSight(c, b.tables[0], txs[i - 1]);
    }
  }

  /** Then `x` is evicted, and if it is outdated it is gone for good. */
  lemma CheapestMustGo(c: Context, txs: seq<Tx>, b: Batch, i: nat, x: Tx)
    requires AddsAll(c, txs, false, b) && b.tables[0].locals !! b.tables[0].remotes
      && MustEvict(c, b.tables[0], txs, i, x)
    ensures x in b.outs[i] && x in Union(b.outs)
    ensures Outdated(c, x) ==> x !in b.tables[|txs|].All()
  {
    hide Reached, Adds;
    RefusedChangeNothing(c, txs, b, i);
    MustEvictStep(c, b.tables[i], txs[i], b.errs[i], b.outs[i], b.hits[i], b.tables[i + 1], x);
    InUnion(b.outs, i, x);
    BatchReaches(c, txs, b, x);
    if Outdated(c, x) { ReachedOutdated(c, b.tables[0], SetOf(txs), |txs|, Union(b.outs), x, b.tables[|txs|]); }
  }

  lemma ReachedOutdated(c: Context, t: Table, s: set<Tx>, n: nat, out: set<Tx>, x: Tx, t': Table)
    requires Reached(c, t, s, n, out, x, t') && Outdated(c, x)
    ensures x in t'.All() <==> x in t.All() && x !in out
    ensures x in out ==> x in t.remotes
  {
  }

  lemma MustEvictStep(c: Context, t: Table, y: Tx, err: AddError, out: set<Tx>, hit: bool, t': Table, x: Tx)
    requires Adds(c, t, y, false, err, out, hit, t') && !RefusedOnSight(c, t, y) && y.from !in t.accounts
    requires Full(c, t, y) && SumSlots(t.remotes) >= Needed(c, t, y)
    requires x in t.remotes && x.price < y.price && forall r :: r in t.remotes ==> r == x || PriceLess(x, r)
    ensures x in out
  {
    hide PriceLess;
    assert !NoneCheaper(t.remotes, y);
    assert out != {} && CheapestFor(t.remotes, out, Needed(c, t, y));
    var d :| d in out;
    assert d in t.remotes;
  }

  lemma {:induction false} InUnion(outs: seq<set<Tx>>, i: nat, x: Tx)
    requires i < |outs| && x in outs[i]
    ensures x in Union(outs)
    decreases |outs|
  {
    if i < |outs| - 1 { InUnion(outs[..|outs| - 1], i, x); }
  }

  // ---------------------------------------------------------------------
  // Building the relation up

  lemma ValidateErrors(c: Context, tx: Tx, local: bool)
    ensures Validate(c, tx, local) !in {AlreadyKnown, PoolOverflow, ReplaceUnderpriced}
  {
  }

  lemma NothingEvicted(t: Table)
    ensures Evicted(t, {}) == t
  {
    assert t.remotes - {} == t.remotes;
  }

  lemma TooCheapIs(c: Context, t: Table, tx: Tx)
    requires Full(c, t, tx) && NoneCheaper(t.remotes, tx)
    ensures Evicts(c, t, tx, false, Underpriced, {}) && Frees(c, t, tx, false, Underpriced, {})
  {
  }

  lemma FullNeeds(c: Context, t: Table, tx: Tx)
    requires Full(c, t, tx)
    ensures Needed(c, t, tx) > 0
  {
    SlotsCoverCount(t.All());
  }

  /** What is left of the eviction step once the pool is full and the price is not too low. */
  lemma SqueezedIs(c: Context, t: Table, tx: Tx, isLocal: bool, ok: bool, out: set<Tx>)
    requires Full(c, t, tx) && (isLocal || !NoneCheaper(t.remotes, tx)) && CheapestFor(t.remotes, out, Needed(c, t, tx))
    requires ok && out == {} ==> isLocal && t.remotes == {}
    requires !ok ==> !isLocal && out == {} && SumSlots(t.remotes) < Needed(c, t, tx)
    ensures var err := if !isLocal && !ok then PoolOverflow else NoError;
      && Evicts(c, t, tx, isLocal, err, out)
      && ((ok ==> SumSlots(out) >= Needed(c, t, tx) || (isLocal && out == t.remotes)) ==>
          Frees(c, t, tx, isLocal, err, out))
  {
    hide CheapestFor, NoneCheaper, Full, SumSlots;
  }

  lemma EvictsErrors(c: Context, t: Table, tx: Tx, isLocal: bool, err: AddError, out: set<Tx>)
    requires Evicts(c, t, tx, isLocal, err, out)
    ensures err in {NoError, Underpriced, PoolOverflow} && (err != NoError ==> out == {})
  {
  }

  /** What Discard takes is just what is asked for. */
  lemma DroppedAreCheapest(drop: seq<Tx>, remotes: set<Tx>, slots: nat)
    requires (forall t :: t in drop ==> t in remotes)
    requires forall t, d :: t in remotes && t !in drop && d in drop ==> !PriceLess(t, d)
    requires drop != [] ==> SlotsOf(drop[..|drop| - 1]) < slots
    ensures CheapestFor(remotes, SetOf(drop), slots)
  {
    hide PriceLess;
    if drop != [] {
      var last, rest := drop[|drop| - 1], drop[..|drop| - 1];
      assert drop == rest + [last];
      CoveringSlots(rest, SetOf(drop) - {last});
      assert last in SetOf(drop);
    }
  }

  function Extended(b: Batch, err: AddError, out: set<Tx>, hit: bool, t: Table): Batch {
    Batch(b.tables + [t], b.errs + [err], b.outs + [out], b.hits + [hit])
  }

  lemma NoTxs(c: Context, txs: seq<Tx>, local: bool, b: Batch)
    requires |b.tables| == 1 && b.errs == [] && b.outs == [] && b.hits == []
    ensures AddsAll(c, txs[..0], local, b) && Union(b.outs) == {} && Dirties(txs, 0, b, {})
  {
  }

  lemma BatchStep(c: Context, txs: seq<Tx>, i: nat, local: bool, b: Batch, err: AddError, out: set<Tx>, hit: bool,
                  t: Table)
    requires i < |txs| && AddsAll(c, txs[..i], local, b) && Adds(c, b.tables[i], txs[i], local, err, out, hit, t)
    ensures AddsAll(c, txs[..i + 1], local, Extended(b, err, out, hit, t))
      && Union(Extended(b, err, out, hit, t).outs) == Union(b.outs) + out
  {
    hide Adds;
    var b' := Extended(b, err, out, hit, t);
    assert b'.outs[..i] == b.outs;
    forall k | 0 <= k < i + 1
      ensures Adds(c, b'.tables[k], txs[..i + 1][k], local, b'.errs[k], b'.outs[k], b'.hits[k], b'.tables[k + 1]) {
      if k < i { assert Adds(c, b.tables[k], txs[..i][k], local, b.errs[k], b.outs[k], b.hits[k], b.tables[k + 1]); }
    }
  }

  /** Transaction `k` of the batch was accepted and replaced none. */
  ghost predicate Fresh(txs: seq<Tx>, b: Batch, k: nat) {
    && k < |txs| && k < |b.errs| && k < |b.outs| && k < |b.tables|
    && b.errs[k] == NoError && Rivals(Evicted(b.tables[k], b.outs[k]).All(), txs[k]) == {}
  }

  /** `dirty` are the senders of the fresh ones among the first `i` transactions. */
  ghost predicate Dirties(txs: seq<Tx>, i: nat, b: Batch, dirty: set<Address>) {
    && (forall k: nat :: k < i && Fresh(txs, b, k) ==> txs[k].from in dirty)
    && (forall a :: a in dirty ==> exists k: nat :: k < i && Fresh(txs, b, k) && txs[k].from == a)
  }

  lemma DirtyStep(txs: seq<Tx>, i: nat, b: Batch, b': Batch, dirty: set<Address>, dirty': set<Address>)
    requires i < |txs| && Dirties(txs, i, b, dirty)
    requires |b.errs| == |b.outs| == i && |b.tables| == i + 1 && |b'.errs| == |b'.outs| == i + 1 && |b'.tables| == i + 2
    requires b'.errs[..i] == b.errs && b'.outs[..i] == b.outs && b'.tables[..i + 1] == b.tables
    requires dirty' == if Fresh(txs, b', i) then dirty + {txs[i].from} else dirty
    ensures Dirties(txs, i + 1, b', dirty')
  {
    hide Rivals, Evicted;
    forall k: nat | k < i ensures Fresh(txs, b', k) <==> Fresh(txs, b, k) {
      assert b'.errs[k] == b'.errs[..i][k] && b'.outs[k] == b'.outs[..i][k] && b'.tables[k] == b'.tables[..i + 1][k];
    }
    forall a | a in dirty' ensures exists k: nat :: k < i + 1 && Fresh(txs, b', k) && txs[k].from == a {
      if a in dirty {
        var k: nat :| k < i && Fresh(txs, b, k) && txs[k].from == a;
        assert Fresh(txs, b', k);
      }
    }
  }

  lemma NothingDropped(drop: seq<Tx>)
    ensures SetOf(drop) == {} ==> drop == [] && SlotsOf(drop) == 0
  {
    if drop != [] { assert drop[0] in SetOf(drop); }
  }

  lemma EvictedIs(t: Table, out: set<Tx>, t': Table)
    requires t'.locals == t.locals && t'.remotes == t.remotes - out && t'.accounts == t.accounts
    ensures t' == Evicted(t, out)
  {
  }

  lemma MarkedIs(t: Table, t': Table, a: Address)
    requires t.locals !! t.remotes && t'.locals !! t'.remotes && t'.accounts == t.accounts + {a} && t'.All() == t.All()
    requires forall x :: x in t'.remotes <==> x in t.remotes && x.from !in t'.accounts
    ensures t'.locals == t.locals + SentBy(t.remotes, t'.accounts)
      && t'.remotes == t.remotes - SentBy(t.remotes, t'.accounts)
  {
    forall x ensures x in t'.locals <==> x in t.locals || x in SentBy(t.remotes, t'.accounts) {
      assert x in t'.All() <==> x in t.All();
    }
  }

  /** With room to spare, a valid remote transaction of a nonce not in use is accepted, and
      nothing else happens. */
  lemma RoomAccepts(c: Context, t: Table, tx: Tx, err: AddError, out: set<Tx>, hit: bool, t': Table)
    requires Adds(c, t, tx, false, err, out, hit, t') && tx.from !in t.accounts
    requires tx !in t.All() && Validate(c, tx, false) == NoError && !Full(c, t, tx) && Rivals(t.All(), tx) == {}
    ensures err == NoError && out == {} && t' == t.(remotes := t.remotes + {tx})
  {
    hide Validate, Full, Outbids;
    NothingEvicted(t);
  }

  // ---------------------------------------------------------------------
  // What gets in

  /** What can be told from the transaction alone. */
  ghost predicate Genuine(tx: Tx) {
    tx.size <= TX_MAX_SIZE && !tx.payload.negative && tx.payload.signed
  }

  /** The rules that a transaction must meet whoever sends it. */
  ghost predicate Sound(c: Context, tx: Tx) {
    && Genuine(tx) && (tx.payload.legacy || c.forks.eip2718)
    && tx.gas <= c.maxGas && c.state.NonceOf(tx.from) <= tx.nonce
    && tx.price * tx.gas + tx.value <= c.state.BalanceOf(tx.from)
    && (if c.forks.istanbul then Covers(tx.payload.istanbulGas, tx.gas) else Covers(tx.payload.frontierGas, tx.gas))
  }

  ghost predicate Covers(needed: Option<nat>, gas: nat) {
    needed.Some? && needed.value <= gas
  }

  /** A transaction is valid if and only if it is sound and local or dear enough. */
  lemma ValidIff(c: Context, tx: Tx, local: bool)
    ensures Validate(c, tx, local) == NoError <==> Sound(c, tx) && (local || tx.price >= c.gasPrice)
  {
  }

  /** What each refusal means. */
  ghost predicate Refuses(c: Context, tx: Tx, local: bool, err: AddError) {
    && (err == TxTypeNotSupported <==> !tx.payload.legacy && !c.forks.eip2718)
    && (err == OversizedData <==> (tx.payload.legacy || c.forks.eip2718) && tx.size > TX_MAX_SIZE)
    && (err in {NegativeValue, GasLimit, InvalidSender} ==>
        (tx.payload.legacy || c.forks.eip2718) && tx.size <= TX_MAX_SIZE)
    && (err == NegativeValue ==> tx.payload.negative) && (err == GasLimit ==> tx.gas > c.maxGas)
    && (err == InvalidSender ==> !tx.payload.signed && tx.gas <= c.maxGas && !tx.payload.negative)
    && (err == NonceTooLow ==> Genuine(tx) && tx.nonce < c.state.NonceOf(tx.from))
    && (err == InsufficientFunds ==>
        Genuine(tx) && c.state.NonceOf(tx.from) <= tx.nonce
        && tx.price * tx.gas + tx.value > c.state.BalanceOf(tx.from))
    && (err in {NonceTooLow, InsufficientFunds, GasUintOverflow, IntrinsicGas} ==> local || tx.price >= c.gasPrice)
    && (err == Underpriced ==> Genuine(tx) && !local && tx.price < c.gasPrice)
    && (Sound(c, tx) && !local && tx.price < c.gasPrice ==> err == Underpriced)
  }

  lemma ValidateRefuses(c: Context, tx: Tx, local: bool)
    ensures Refuses(c, tx, local, Validate(c, tx, local))
  {
  }

  /** The verdict on a transaction that is not known yet, in terms of the rules: it is valid, and
      then accepted unless it is too cheap for a full pool or does not outbid its rival, or it
      is refused for the rule it breaks. */
  ghost predicate Judged(c: Context, t: Table, tx: Tx, local: bool, err: AddError, t': Table) {
    var isLocal := local || tx.from in t.accounts;
    && (err == AlreadyKnown <==> tx in t.All())
    && (tx !in t.All() && Sound(c, tx) && (isLocal || tx.price >= c.gasPrice) ==>
        err in {NoError, Underpriced, PoolOverflow, ReplaceUnderpriced})
    && (err in {NoError, PoolOverflow, ReplaceUnderpriced} ==>
        Sound(c, tx) && (isLocal || tx.price >= c.gasPrice))
    && (tx !in t.All() && !(Sound(c, tx) && (isLocal || tx.price >= c.gasPrice)) ==>
        Refuses(c, tx, isLocal, err) && t' == t)
    && (tx in t'.All() <==> err in {NoError, AlreadyKnown})
  }

  lemma AddsJudges(c: Context, t: Table, tx: Tx, local: bool, err: AddError, out: set<Tx>, hit: bool, t': Table)
    requires Adds(c, t, tx, local, err, out, hit, t')
    ensures Judged(c, t, tx, local, err, t')
  {
    hide Sound, Validate, Refuses, BeatsRivals, Full, NoneCheaper, CheapestFor;
    var isLocal := local || tx.from in t.accounts;
    ValidIff(c, tx, isLocal);
    ValidateRefuses(c, tx, isLocal);
    ValidateErrors(c, tx, isLocal);
  }

  /** Remote transactions are dear enough and from accounts that are not local, and all are
      genuine. */
  ghost predicate Clean(price: nat, t: Table) {
    && (forall r :: r in t.remotes ==> r.price >= price && r.from !in t.accounts)
    && forall x :: x in t.All() ==> Genuine(x)
  }

  lemma NothingIsClean(price: nat, t: Table)
    requires t.All() == {}
    ensures Clean(price, t)
  {
    forall r ensures r !in t.remotes { assert r !in t.All(); }
  }

  lemma AddsKeepClean(c: Context, t: Table, tx: Tx, local: bool, err: AddError, out: set<Tx>, hit: bool, t': Table)
    requires Adds(c, t, tx, local, err, out, hit, t') && Clean(c.gasPrice, t)
    ensures Clean(c.gasPrice, t')
  {
    hide Sound, Validate, Genuine, BeatsRivals, Evicts;
    var isLocal := local || tx.from in t.accounts;
    ValidIff(c, tx, isLocal);
    if Validate(c, tx, isLocal) == NoError { SoundIsGenuine(c, tx); }
  }

  lemma SoundIsGenuine(c: Context, tx: Tx)
    requires Sound(c, tx)
    ensures Genuine(tx)
  {
  }

  lemma {:induction false} BatchKeepsClean(c: Context, txs: seq<Tx>, local: bool, b: Batch, i: nat)
    requires AddsAll(c, txs, local, b) && Clean(c.gasPrice, b.tables[0]) && i <= |txs|
    ensures Clean(c.gasPrice, b.tables[i])
    decreases i
  {
    hide Clean, Adds;
    if i > 0 {
      BatchKeepsClean(c, txs, local, b, i - 1);
      AddsKeepClean(c, b.tables[i - 1], txs[i - 1], local, b.errs[i - 1], b.outs[i - 1], b.hits[i - 1], b.tables[i]);
    }
  }

  lemma LessIsClean(price: nat, t: Table, t': Table)
    requires Clean(price, t) && t'.locals <= t.locals && t'.remotes <= t.remotes && t'.accounts == t.accounts
    ensures Clean(price, t')
  {
    hide Genuine;
  }
}
