/** core/state_processor.go: the transaction loop of a block and its gas book-keeping. */
module StateProcessors {
  import opened Transactions
  import opened GasPools
  import opened StateTransitions
  import opened Words

  /** A transaction of the block: whether it is a system transaction (nothing if that cannot be
      told) and its message (nothing if the signature is bad). */
  datatype BlockTx = BlockTx(id: nat, system: Option<bool>, message: Option<Message>)

  datatype Receipt = Receipt(tx: nat, cumulativeGasUsed: nat, gasUsed: nat, failed: bool)

  function SumUsed(rs: seq<Receipt>): nat {
    if rs == [] then 0 else SumUsed(rs[..|rs| - 1]) + rs[|rs| - 1].gasUsed
  }

  predicate IsSystem(tx: BlockTx, posa: bool) {
    posa && tx.system == Some(true)
  }

  /** The transactions that get a receipt, in order. */
  function Common(txs: seq<BlockTx>, posa: bool): seq<BlockTx> {
    if txs == [] then []
    else Common(txs[..|txs| - 1], posa) + if IsSystem(txs[|txs| - 1], posa) then [] else [txs[|txs| - 1]]
  }

  function System(txs: seq<BlockTx>, posa: bool): seq<BlockTx> {
    if txs == [] then []
    else System(txs[..|txs| - 1], posa) + if IsSystem(txs[|txs| - 1], posa) then [txs[|txs| - 1]] else []
  }

  /** The two kinds of transactions of a block, by what they are: outside proof of stake nothing
      is set apart, otherwise exactly the system transactions are, both in order. */
  ghost predicate Sorted(txs: seq<BlockTx>, posa: bool, common: seq<BlockTx>, system: seq<BlockTx>) {
    && (!posa ==> common == txs && system == [])
    && |common| + |system| == |txs|
    && (posa ==> forall k :: 0 <= k < |common| ==> common[k].system != Some(true))
    && (forall k :: 0 <= k < |system| ==> system[k].system == Some(true))
    && forall tx :: tx in txs <==> tx in common || tx in system
  }

  lemma {:induction false} SortedIs(txs: seq<BlockTx>, posa: bool)
    ensures Sorted(txs, posa, Common(txs, posa), System(txs, posa))
  {
    if txs != [] {
      var rest, last := txs[..|txs| - 1], txs[|txs| - 1];
      SortedIs(rest, posa);
      assert txs == rest + [last];
    }
  }

  /** Each receipt carries the gas used by all transactions up to its own. */
  ghost predicate PrefixSums(rs: seq<Receipt>) {
    forall k :: 0 <= k < |rs| ==> rs[k].cumulativeGasUsed == SumUsed(rs[..k + 1])
  }

  ghost predicate For(rs: seq<Receipt>, txs: seq<BlockTx>) {
    |rs| == |txs| && forall k :: 0 <= k < |rs| ==> rs[k].tx == txs[k].id
  }

  lemma OneReceipt(rs: seq<Receipt>, txs: seq<BlockTx>, r: Receipt, tx: BlockTx)
    requires PrefixSums(rs) && For(rs, txs) && r.tx == tx.id && r.cumulativeGasUsed == SumUsed(rs) + r.gasUsed
    ensures PrefixSums(rs + [r]) && For(rs + [r], txs + [tx]) && SumUsed(rs + [r]) == r.cumulativeGasUsed
  {
    var all := rs + [r];
    assert all[..|rs|] == rs && all[..|all|] == all;
    forall k | 0 <= k < |all| ensures all[k].cumulativeGasUsed == SumUsed(all[..k + 1]) {
      if k < |rs| { assert all[..k + 1] == rs[..k + 1]; }
    }
  }

  lemma NextTx(txs: seq<BlockTx>, i: nat, posa: bool)
    requires i < |txs|
    ensures Common(txs[..i + 1], posa) == if IsSystem(txs[i], posa) then Common(txs[..i], posa)
      else Common(txs[..i], posa) + [txs[i]]
    ensures System(txs[..i + 1], posa) == if IsSystem(txs[i], posa) then System(txs[..i], posa) + [txs[i]]
      else System(txs[..i], posa)
    ensures txs[..|txs|] == txs
  {
    assert txs[..i + 1][..i] == txs[..i];
  }

  /** No call creates or destroys value. */
  ghost predicate NoMint(run: (World, nat) -> Outcome) {
    forall w: World, g: nat :: Supply(run(w, g).world.balances) == Supply(w.balances)
  }

  /** The world and the gas left in the pool. */
  datatype Point = Point(world: World, pool: nat)

  /** One message: nothing if it breaks a consensus rule. */
  ghost function AfterMessage(at: Point, msg: Message, rules: Rules, run: (World, nat) -> Outcome): Option<Point> {
    if FirstError(at.world, at.pool, msg, rules) != NoError then None
    else
      var charge := Intrinsic(msg, rules);
      var o := run(AtCall(at.world, msg), msg.gas - charge);
      UsedBounds(msg.gas, charge, o);
      var used := Used(msg.gas, charge, o);
      Some(Point(o.world.(balances := Settled(o.world.balances, msg, rules.feeTo, used)), at.pool - used))
  }

  ghost function AfterTx(at: Point, tx: BlockTx, rules: Rules, posa: bool,
                         run: (World, nat) -> Outcome): Option<Point> {
    if posa && tx.system.None? then None
    else if IsSystem(tx, posa) then Some(at)
    else if tx.message.None? then None
    else AfterMessage(at, tx.message.value, rules, run)
  }

  /** The transactions one after the other, up to the first that cannot be applied. */
  ghost function AfterAll(at: Point, txs: seq<BlockTx>, rules: Rules, posa: bool,
                          runs: seq<(World, nat) -> Outcome>): Option<Point>
    requires |txs| <= |runs|
  {
    if txs == [] then Some(at)
    else
      var k := |txs| - 1;
      var before := AfterAll(at, txs[..k], rules, posa, runs);
      if before.None? then None else AfterTx(before.value, txs[k], rules, posa, runs[k])
  }

  lemma OneMoreTx(at: Point, txs: seq<BlockTx>, i: nat, rules: Rules, posa: bool, runs: seq<(World, nat) -> Outcome>)
    requires i < |txs| <= |runs|
    ensures var before := AfterAll(at, txs[..i], rules, posa, runs);
      AfterAll(at, txs[..i + 1], rules, posa, runs) == if before.None? then None
        else AfterTx(before.value, txs[i], rules, posa, runs[i])
  {
    assert txs[..i + 1][..i] == txs[..i];
  }

  lemma NothingApplied(at: Point, txs: seq<BlockTx>, rules: Rules, posa: bool, runs: seq<(World, nat) -> Outcome>)
    ensures AfterAll(at, txs[..0], rules, posa, runs) == Some(at)
  {
  }

  /** A transaction that cannot be applied stops the block. */
  lemma {:induction false} Stopped(at: Point, txs: seq<BlockTx>, i: nat, rules: Rules, posa: bool,
                                   runs: seq<(World, nat) -> Outcome>)
    requires i <= |txs| <= |runs| && AfterAll(at, txs[..i], rules, posa, runs).None?
    ensures AfterAll(at, txs, rules, posa, runs).None?
    decreases |txs| - i
  {
    if i < |txs| {
      OneMoreTx(at, txs, i, rules, posa, runs);
      Stopped(at, txs, i + 1, rules, posa, runs);
    } else {
      assert txs[..i] == txs;
    }
  }

  /** applyTransaction: the pool goes down by what the receipt says. */
  method ApplyTransaction(gp: GasPool, state: StateDB, tx: BlockTx, msg: Message, rules: Rules, usedGas: nat,
                          run: (World, nat) -> Outcome)
    returns (receipt: Option<Receipt>)
    requires gp.Valid() && msg.gas < U64 && |msg.data| < U64 && usedGas + gp.gas < U64
    modifies gp, state
    ensures gp.Valid()
    ensures var after := AfterMessage(Point(old(state.world), old(gp.gas)), msg, rules, run);
      (receipt.Some? <==> after.Some?)
        && (receipt.Some? ==> state.world == after.value.world && gp.gas == after.value.pool)
    ensures receipt.Some? ==>
      && receipt.value.tx == tx.id && receipt.value.cumulativeGasUsed == usedGas + receipt.value.gasUsed
      && gp.gas == old(gp.gas) - receipt.value.gasUsed
      && (NoMint(run) ==> Supply(state.world.balances) == Supply(old(state.world).balances))
  {
    hide FirstError, Intrinsic, Fee, Balance, Supply, Settled, Used, StateTransition.Succeeded, AfterMessage;
    var st := new StateTransition(gp, state, msg, rules);
    var used, failed, err := st.TransitionDb(run);
    Replays(st, old(state.world), old(gp.gas), run, used, failed);
    if err != NoError {
      return None;
    }
    MovesNothing(st, old(state.world), old(gp.gas), run, used, failed);
    var cumulative := (usedGas + used) % U64;
    return Some(Receipt(tx.id, cumulative, used, failed));
  }

  lemma Replays(st: StateTransition, w: World, pool: nat, run: (World, nat) -> Outcome, used: nat, failed: bool)
    ensures var after := AfterMessage(Point(w, pool), st.msg, st.rules, run);
      var e := FirstError(w, pool, st.msg, st.rules);
      && (after.Some? <==> e == NoError)
      && (e == NoError ==> Fee(st.msg.gas, st.msg.gasPrice) <= Balance(w.balances, st.msg.from))
      && (e == NoError && st.Succeeded(w, pool, run, used, failed) ==> after.value == Point(st.state.world, st.gp.gas))
  {
    hide Intrinsic, Fee, Balance, Settled, Used, DataGas;
  }

  lemma MovesNothing(st: StateTransition, w: World, pool: nat, run: (World, nat) -> Outcome, used: nat, failed: bool)
    requires Fee(st.msg.gas, st.msg.gasPrice) <= Balance(w.balances, st.msg.from)
      && st.Succeeded(w, pool, run, used, failed)
    ensures used <= pool && st.gp.gas == pool - used
    ensures NoMint(run) ==> Supply(st.state.world.balances) == Supply(w.balances)
  {
    hide Intrinsic, Fee, Balance, Supply, Settled, Used;
    var o := run(AtCall(w, st.msg), st.msg.gas - Intrinsic(st.msg, st.rules));
    SupplyConserved(w, st.msg, st.rules.feeTo, o.world.balances, used);
  }

  /** The transaction loop of Process, before Finalize: what is left in the pool and what was
      used make up the gas limit, the receipts are those of the common transactions in order
      with running totals, value is conserved if the EVM conserves it, and the block succeeds
      exactly if every transaction can be applied in turn, with that result. */
  method Process(txs: seq<BlockTx>, gasLimit: nat, state: StateDB, rules: Rules, posa: bool,
                 runs: seq<(World, nat) -> Outcome>)
    returns (ok: bool, receipts: seq<Receipt>, systemTxs: seq<BlockTx>, used: nat, left: nat)
    requires |runs| == |txs| && gasLimit < U64 && forall i :: 0 <= i < |txs| && txs[i].message.Some? ==>
      txs[i].message.value.gas < U64 && |txs[i].message.value.data| < U64
    modifies state
    ensures !ok ==> receipts == [] && used == 0
    ensures var after := AfterAll(Point(old(state.world), gasLimit), txs, rules, posa, runs);
      (ok <==> after.Some?) && (ok ==> state.world == after.value.world && left == after.value.pool)
    ensures ok ==> left + used == gasLimit && used == SumUsed(receipts)
    ensures ok ==> PrefixSums(receipts) && For(receipts, Common(txs, posa)) && systemTxs == System(txs, posa)
    ensures ok ==> Sorted(txs, posa, Common(txs, posa), systemTxs)
    ensures ok && (forall i :: 0 <= i < |runs| ==> NoMint(runs[i])) ==>
      Supply(state.world.balances) == Supply(old(state.world).balances)
  {
    hide SumUsed, Common, System, PrefixSums, For, NoMint, Supply, AfterAll, AfterMessage, Sorted;
    SortedIs(txs, posa);
    var gp := new GasPool();
    var panicked := gp.AddGas(gasLimit);
    receipts, systemTxs, used, left := [], [], 0, 0;
    NoTx(txs, posa);
    ghost var start := Point(state.world, gasLimit);
    NothingApplied(start, txs, rules, posa, runs);
    var i := 0;
    while i < |txs|
      invariant 0 <= i <= |txs| && gp.Valid() && gp.gas + used == gasLimit && used == SumUsed(receipts)
      invariant PrefixSums(receipts) && For(receipts, Common(txs[..i], posa)) && systemTxs == System(txs[..i], posa)
      invariant AfterAll(start, txs[..i], rules, posa, runs) == Some(Point(state.world, gp.gas))
      invariant (forall k :: 0 <= k < |runs| ==> NoMint(runs[k])) ==>
        Supply(state.world.balances) == Supply(old(state.world).balances)
    {
      NextTx(txs, i, posa);
      OneMoreTx(start, txs, i, rules, posa, runs);
      if posa && txs[i].system.None? {
        Stopped(start, txs, i + 1, rules, posa, runs);
        return false, [], [], 0, 0;
      }
      if IsSystem(txs[i], posa) {
        systemTxs := systemTxs + [txs[i]];
      } else {
        if txs[i].message.None? {
          Stopped(start, txs, i + 1, rules, posa, runs);
          return false, [], [], 0, 0;
        }
        var receipt := ApplyTransaction(gp, state, txs[i], txs[i].message.value, rules, used, runs[i]);
        if receipt.None? {
          Stopped(start, txs, i + 1, rules, posa, runs);
          return false, [], [], 0, 0;
        }
        OneReceipt(receipts, Common(txs[..i], posa), receipt.value, txs[i]);
        used := receipt.value.cumulativeGasUsed;
        receipts := receipts + [receipt.value];
      }
      i := i + 1;
    }
    assert txs[..|txs|] == txs;
    ok, left := true, gp.gas;
  }

  lemma NoTx(txs: seq<BlockTx>, posa: bool)
    ensures Common(txs[..0], posa) == [] && System(txs[..0], posa) == [] && SumUsed([]) == 0 && PrefixSums([])
      && For([], [])
  {
  }
}
