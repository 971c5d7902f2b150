/** Runs of the transaction pool in core/tx_pool.go: any sequence of operations as snapshots of
    the pool and the exact relation between them. */
module PoolRuns {
  import opened Transactions
  import opened TxLookups
  import opened PoolBooks
  import opened PoolNonces
  import opened PoolMoves
  import opened PoolTruncate
  import opened PoolAdd
  import opened PoolSteps
  import opened PoolReorg

  datatype Config = Config(priceBump: nat, accountSlots: nat, globalSlots: nat, accountQueue: nat, globalQueue: nat)

  /** What a reset brings: state, gas limit and fork rules of the new head, and the transactions
      of abandoned blocks that the new chain does not contain. */
  datatype ResetRequest = ResetRequest(state: ChainState, maxGas: nat, forks: Forks, reinject: seq<Tx>)

  datatype Operation = AddTxs(txs: seq<Tx>, local: bool) | Promote(dirty: seq<Address>, beats: map<Address, nat>)
                     | ResetTo(req: ResetRequest, beats: map<Address, nat>)
                     | SetPrice(price: nat) | DropIdle(beats: map<Address, nat>, now: nat, lifetime: nat)

  datatype Snapshot = Snapshot(pending: Accounts, queue: Accounts, nonces: map<Address, nat>, ctx: Context,
                               table: Table)
  {
    ghost predicate Kept() {
      Books(pending, queue, table.All(), 0, map[]) && table.locals !! table.remotes
    }

    function Lists(): Standing { Standing(pending, queue, nonces) }

    ghost predicate Aligns(a: Address) {
      Aligned(ItemsOf(pending, a), ctx.state.NonceOf(a), NextIn(ctx.state, nonces, a))
    }

    ghost predicate Stands(a: Address) {
      InStep(ItemsOf(pending, a), ctx.state.NonceOf(a), NextIn(ctx.state, nonces, a))
    }

    ghost predicate Anchors(a: Address) {
      Anchored(ItemsOf(pending, a), ctx.state.NonceOf(a), NextIn(ctx.state, nonces, a))
    }
  }

  /** What an operation goes through: the additions of a batch, the table and lists after them,
      the lists after promotion and after demotion. */
  datatype Stages = Stages(batch: Batch, table: Table, s: Standing, s1: Standing, s2: Standing)

  ghost predicate Truncated(cfg: Config, locals: set<Address>, s: Standing, pending: Accounts, queue: Accounts,
                            beats: map<Address, nat>) {
    && FairlyTruncated(s.pending, pending, locals, cfg.accountSlots, cfg.globalSlots)
    && QueueTruncated(s.queue, queue, locals, cfg.globalQueue) && LatestFirst(s.queue, queue, locals, beats)
  }

  ghost predicate Shrinks(t: Table, t': Table) {
    t'.locals <= t.locals && t'.remotes <= t.remotes && t'.accounts == t.accounts
  }

  /** The context in which a reset re-injects: the fork rules are only changed afterwards. */
  function Reinjecting(c: Context, req: ResetRequest): Context {
    c.(state := req.state, maxGas := req.maxGas)
  }

  /** runReorg with a reset, stage by stage. */
  ghost predicate Resets(cfg: Config, s: Snapshot, req: ResetRequest, beats: map<Address, nat>, m: Stages,
                         s': Snapshot) {
    var locals := s'.table.accounts;
    && s'.ctx == Reinjecting(s.ctx, req).(forks := req.forks)
    && Leads(Reinjecting(s.ctx, req), s.table, req.reinject, false, m.batch, m.table)
    && Books(m.s.pending, m.s.queue, m.table.All(), 0, map[])
    && AllCut(s.pending, req.state, map[], m.s.pending, m.s.nonces, Union(m.batch.outs))
    && AllPromoted(m.s, m.s1, req.state, req.maxGas, locals, cfg.accountQueue, m.s.queue.Keys)
    && AllDemoted(m.s1, m.s2, req.state, req.maxGas, {})
    && Truncated(cfg, locals, m.s2, s'.pending, s'.queue, beats) && Shrinks(m.table, s'.table)
    && (forall a: Address :: s'.Anchors(a))
    && forall a: Address :: Outcome(s.pending, s.ctx.state, m.table.All(), s'.pending, s'.nonces, req.state, a)
  }

  /** runReorg without a reset. */
  ghost predicate Promoting(cfg: Config, s: Snapshot, dirty: seq<Address>, beats: map<Address, nat>, m: Stages,
                            s': Snapshot) {
    var locals := s.table.accounts;
    && s'.ctx == s.ctx
    && (Distinct(dirty) ==>
        AllPromoted(s.Lists(), m.s1, s.ctx.state, s.ctx.maxGas, locals, cfg.accountQueue, Members(dirty)))
    && Truncated(cfg, locals, m.s1, s'.pending, s'.queue, beats) && Shrinks(s.table, s'.table)
  }

  /** A remote account without a sign of life for longer than the lifetime. */
  predicate IsIdle(locals: set<Address>, beats: map<Address, nat>, now: nat, lifetime: nat, a: Address) {
    a !in locals && now > BeatOf(beats, a) + lifetime
  }

  /** The idle accounts lose their queues, the others nothing. */
  ghost predicate IdleDropped(queue: Accounts, queue': Accounts, locals: set<Address>, beats: map<Address, nat>,
                              now: nat,
                              lifetime: nat) {
    forall a: Address ::
      && (a !in locals && BeatOf(beats, a) + lifetime < now ==> ItemsOf(queue', a) == map[])
      && (a in locals || now <= BeatOf(beats, a) + lifetime ==> ItemsOf(queue', a) == ItemsOf(queue, a))
  }

  /** What one operation does. */
  ghost predicate Does(cfg: Config, s: Snapshot, op: Operation, m: Stages, s': Snapshot) {
    match op
    case AddTxs(txs, local) =>
      && s'.ctx == s.ctx && Leads(s.ctx, s.table, txs, local, m.batch, s'.table)
      && AllCut(s.pending, s.ctx.state, s.nonces, s'.pending, s'.nonces, Union(m.batch.outs))
    case Promote(dirty, beats) => Promoting(cfg, s, dirty, beats, m, s')
    case ResetTo(req, beats) => Resets(cfg, s, req, beats, m, s')
    case SetPrice(price) =>
      && s'.ctx == s.ctx.(gasPrice := price) && Shrinks(s.table, s'.table) && s'.table.locals == s.table.locals
      && forall t :: t in s'.table.remotes <==> t in s.table.remotes && t.price >= price
    case DropIdle(beats, now, lifetime) =>
      && s'.ctx == s.ctx && Shrinks(s.table, s'.table) && s'.pending == s.pending && s'.nonces == s.nonces
      && IdleDropped(s.queue, s'.queue, s.table.accounts, beats, now, lifetime)
  }

  /** One operation: what it does, with the books kept, and every account kept in step by all
      but resets. */
  ghost predicate Performs(cfg: Config, s: Snapshot, op: Operation, m: Stages, s': Snapshot) {
    && s.Kept() && s'.Kept() && Does(cfg, s, op, m, s')
    && (op.ResetTo? ==> s'.ctx.state == op.req.state)
    && (!op.ResetTo? ==>
        s'.ctx.state == s.ctx.state && AllKeepStep(s.pending, s.nonces, s'.pending, s'.nonces, s.ctx.state))
  }

  /** A run of the pool: the snapshots between the operations. */
  ghost predicate Traces(cfg: Config, ops: seq<Operation>, mids: seq<Stages>, trace: seq<Snapshot>) {
    && |trace| == |ops| + 1 && |mids| == |ops|
    && forall i :: 0 <= i < |ops| ==> Performs(cfg, trace[i], ops[i], mids[i], trace[i + 1])
  }

  /** No reset takes the nonce of `a` back. */
  ghost predicate NeverBack(ops: seq<Operation>, trace: seq<Snapshot>, a: Address) {
    |trace| == |ops| + 1 && forall i :: 0 <= i < |ops| ==>
      trace[i].ctx.state.NonceOf(a) <= trace[i + 1].ctx.state.NonceOf(a)
  }

  lemma ResetOutcome(cfg: Config, s: Snapshot, op: Operation, m: Stages, s': Snapshot, a: Address)
    requires Performs(cfg, s, op, m, s') && op.ResetTo?
    ensures Outcome(s.pending, s.ctx.state, m.table.All(), s'.pending, s'.nonces, s'.ctx.state, a) && s'.Anchors(a)
    ensures Leads(Reinjecting(s.ctx, op.req), s.table, op.req.reinject, false, m.batch, m.table)
  {
    hide Outcome, Leads, AllCut, AllPromoted, AllDemoted, Truncated, Books, Union, Snapshot.Anchors;
  }

  /** One operation keeps an account in step, and a reset leaves it aligned if and only if it
      left its stale pending transactions in the table. */
  lemma StepInStep(cfg: Config, s: Snapshot, op: Operation, m: Stages, s': Snapshot, a: Address)
    requires Performs(cfg, s, op, m, s') && s.Stands(a) && s.ctx.state.NonceOf(a) <= s'.ctx.state.NonceOf(a)
    ensures s'.Stands(a) && (!op.ResetTo? ==> (s.Aligns(a) <==> s'.Aligns(a)))
    ensures op.ResetTo? ==> (s'.Aligns(a) <==> !StaleGone(s.pending, m.table.All(), s'.ctx.state, a))
    ensures op.ResetTo? && !s.Aligns(a) ==> s'.Aligns(a)
  {
    hide Starts, Does, ItemsOf, NextIn, Books;
    if op.ResetTo? {
      InStepStarts(s.pending, s.nonces, s.ctx.state, s'.ctx.state, a);
      ResetOutcome(cfg, s, op, m, s', a);
    } else {
      assert KeepsStep(ItemsOf(s.pending, a), NextIn(s.ctx.state, s.nonces, a), ItemsOf(s'.pending, a),
                       NextIn(s.ctx.state, s'.nonces, a), s.ctx.state.NonceOf(a));
    }
  }

  /** Over every run in which the nonce of an account never goes back, the account stays in
      step, and after each reset its pending list is the gapless run from the state nonce to
      the virtual nonce if and only if that reset left its stale transactions in the table. */
  lemma {:induction false} EveryReset(cfg: Config, ops: seq<Operation>, mids: seq<Stages>, trace: seq<Snapshot>,
                                      a: Address, i: nat)
    requires Traces(cfg, ops, mids, trace) && NeverBack(ops, trace, a) && trace[0].Stands(a) && i <= |ops|
    ensures trace[i].Stands(a)
    ensures i > 0 && ops[i - 1].ResetTo? ==>
      (trace[i].Aligns(a) <==> !StaleGone(trace[i - 1].pending, mids[i - 1].table.All(), trace[i].ctx.state, a))
    decreases i
  {
    hide Performs, Snapshot.Stands, Snapshot.Aligns;
    if i > 0 {
      EveryReset(cfg, ops, mids, trace, a, i - 1);
      StepInStep(cfg, trace[i - 1], ops[i - 1], mids[i - 1], trace[i], a);
    }
  }

  /** What the state before a reset of the run tells about the account after it. */
  lemma EveryResetForeseen(cfg: Config, ops: seq<Operation>, mids: seq<Stages>, trace: seq<Snapshot>, a: Address,
                           i: nat)
    requires Traces(cfg, ops, mids, trace) && NeverBack(ops, trace, a) && trace[0].Stands(a)
    requires i < |ops| && ops[i].ResetTo?
    ensures var s, req := trace[i], ops[i].req; var c := Reinjecting(s.ctx, req);
      && (RoomForAll(c, s.table, req.reinject) || NoStaleRemote(s.pending, s.table, req.state, a) ==>
          trace[i + 1].Aligns(a))
      && forall n, k: nat ::
           n in ItemsOf(s.pending, a) && n < req.state.NonceOf(a)
           && MustEvict(c, s.table, req.reinject, k, ItemsOf(s.pending, a)[n]) ==>
             !trace[i + 1].Aligns(a)
  {
    hide Performs, Snapshot.Stands, Snapshot.Aligns, RoomForAll, NoStaleRemote, MustEvict, StaleGone, ItemsOf;
    EveryReset(cfg, ops, mids, trace, a, i + 1);
    assert Performs(cfg, trace[i], ops[i], mids[i], trace[i + 1]);
    Foreseen(cfg, trace[i], ops[i], mids[i], trace[i + 1], a);
  }

  lemma Foreseen(cfg: Config, s: Snapshot, op: Operation, m: Stages, s': Snapshot, a: Address)
    requires Performs(cfg, s, op, m, s') && op.ResetTo?
    ensures var c := Reinjecting(s.ctx, op.req);
      && s'.ctx.state == op.req.state
      && (RoomForAll(c, s.table, op.req.reinject) || NoStaleRemote(s.pending, s.table, op.req.state, a) ==>
          !StaleGone(s.pending, m.table.All(), op.req.state, a))
      && forall n, k: nat ::
           n in ItemsOf(s.pending, a) && n < op.req.state.NonceOf(a)
           && MustEvict(c, s.table, op.req.reinject, k, ItemsOf(s.pending, a)[n]) ==>
             StaleGone(s.pending, m.table.All(), op.req.state, a)
  {
    hide Does, Books, Leads, Reinjects, RoomForAll, NoStaleRemote, MustEvict, StaleGone;
    var c := Reinjecting(s.ctx, op.req);
    ResetOutcome(cfg, s, op, m, s', a);
    LeadsReinjects(c, s.table, op.req.reinject, m.batch, m.table);
    if RoomForAll(c, s.table, op.req.reinject) || NoStaleRemote(s.pending, s.table, op.req.state, a) {
      NothingStaleGoes(s.pending, s.queue, c, s.table, op.req.reinject, m.table, a);
    }
    OwnPending(s.pending, s.queue, s.table.All(), a);
    forall n, k: nat | n in ItemsOf(s.pending, a) && n < op.req.state.NonceOf(a)
      && MustEvict(c, s.table, op.req.reinject, k, ItemsOf(s.pending, a)[n])
      ensures StaleGone(s.pending, m.table.All(), op.req.state, a)
    {
      CheapestStaleGoes(s.pending, c, s.table, op.req.reinject, m.table, a, n, k);
    }
  }

  /** After every reset, even one that takes nonces back, each pending list starts at the state
      nonce and ends right before the virtual nonce. */
  lemma EveryResetAnchors(cfg: Config, ops: seq<Operation>, mids: seq<Stages>, trace: seq<Snapshot>, a: Address, i: nat)
    requires Traces(cfg, ops, mids, trace) && i < |ops| && ops[i].ResetTo?
    ensures trace[i + 1].Anchors(a)
  {
    hide Performs, Snapshot.Anchors;
    assert Performs(cfg, trace[i], ops[i], mids[i], trace[i + 1]);
    ResetOutcome(cfg, trace[i], ops[i], mids[i], trace[i + 1], a);
  }

  /** One operation keeps the table clean. */
  lemma StepKeepsClean(cfg: Config, s: Snapshot, op: Operation, m: Stages, s': Snapshot)
    requires Performs(cfg, s, op, m, s') && Clean(s.ctx.gasPrice, s.table)
    ensures Clean(s'.ctx.gasPrice, s'.table)
  {
    hide Clean, Books, AllCut, AllPromoted, AllDemoted, Truncated, IdleDropped, AllKeepStep, Outcome, AddsAll, Union,
         Snapshot.Anchors;
    match op {
      case AddTxs(txs, local) => BatchKeepsClean(s.ctx, txs, local, m.batch, |txs|);
      case ResetTo(req, _) =>
        BatchKeepsClean(Reinjecting(s.ctx, req), req.reinject, false, m.batch, |req.reinject|);
        LessIsClean(s.ctx.gasPrice, m.table, s'.table);
      case SetPrice(price) => RepricedIsClean(s.ctx.gasPrice, price, s.table, s'.table);
      case _ => LessIsClean(s.ctx.gasPrice, s.table, s'.table);
    }
  }

  lemma RepricedIsClean(price0: nat, price: nat, t: Table, t': Table)
    requires Clean(price0, t) && Shrinks(t, t') && forall x :: x in t'.remotes ==> x.price >= price
    ensures Clean(price, t')
  {
    hide Genuine;
  }

  /** At every point of every run that starts so, remote transactions pay at least the pool's
      minimum price and come from accounts that are not local, and all are genuine. */
  lemma {:induction false} AlwaysClean(cfg: Config, ops: seq<Operation>, mids: seq<Stages>, trace: seq<Snapshot>,
                                       i: nat)
    requires Traces(cfg, ops, mids, trace) && Clean(trace[0].ctx.gasPrice, trace[0].table) && i <= |ops|
    ensures Clean(trace[i].ctx.gasPrice, trace[i].table)
    decreases i
  {
    hide Performs, Clean;
    if i > 0 {
      AlwaysClean(cfg, ops, mids, trace, i - 1);
      StepKeepsClean(cfg, trace[i - 1], ops[i - 1], mids[i - 1], trace[i]);
    }
  }

  lemma TraceStep(cfg: Config, ops: seq<Operation>, i: nat, mids: seq<Stages>, trace: seq<Snapshot>, m: Stages,
                  s: Snapshot)
    requires i < |ops| && Traces(cfg, ops[..i], mids, trace) && Performs(cfg, trace[i], ops[i], m, s)
    ensures Traces(cfg, ops[..i + 1], mids + [m], trace + [s])
  {
    hide Performs;
    var mids', trace' := mids + [m], trace + [s];
    forall k | 0 <= k < i + 1 ensures Performs(cfg, trace'[k], ops[..i + 1][k], mids'[k], trace'[k + 1]) {
      if k < i { assert Performs(cfg, trace[k], ops[..i][k], mids[k], trace[k + 1]); }
    }
  }

  lemma ResetContext(cfg: Config, s: Snapshot, req: ResetRequest, beats: map<Address, nat>, m: Stages, s': Snapshot)
    requires Resets(cfg, s, req, beats, m, s')
    ensures s'.ctx.state == req.state
  {
  }

  lemma NewStands(s: Snapshot)
    requires s.pending == map[] && s.nonces == map[]
    ensures forall a: Address :: s.Stands(a)
  {
  }

  // ---------------------------------------------------------------------
  // Idle accounts

  ghost predicate IdleSoFar(queue: Accounts, queue': Accounts, locals: set<Address>, beats: map<Address, nat>, now: nat,
                            lifetime: nat, todo: set<Address>) {
    forall a: Address ::
      ItemsOf(queue', a) ==
        if a !in todo && IsIdle(locals, beats, now, lifetime, a) then map[] else ItemsOf(queue, a)
  }

  lemma IsRemote(locals: set<Address>, beats: map<Address, nat>, now: nat, lifetime: nat, a: Address)
    requires IsIdle(locals, beats, now, lifetime, a)
    ensures a !in locals
  {
  }

  lemma IdleStart(queue: Accounts, locals: set<Address>, beats: map<Address, nat>, now: nat, lifetime: nat)
    ensures IdleSoFar(queue, queue, locals, beats, now, lifetime, queue.Keys)
  {
  }

  lemma IdleStep(queue: Accounts, queue': Accounts, queue'': Accounts, locals: set<Address>, beats: map<Address, nat>,
                 now: nat, lifetime: nat, todo: set<Address>, a: Address)
    requires IdleSoFar(queue, queue', locals, beats, now, lifetime, todo) && a in todo
    requires SameElsewhere(a, queue', queue'')
    requires ItemsOf(queue'', a) == if IsIdle(locals, beats, now, lifetime, a) then map[] else ItemsOf(queue', a)
    ensures IdleSoFar(queue, queue'', locals, beats, now, lifetime, todo - {a})
  {
    hide IsIdle, ItemsOf;
    forall x: Address
      ensures ItemsOf(queue'', x) ==
        if x !in todo - {a} && IsIdle(locals, beats, now, lifetime, x) then map[] else ItemsOf(queue, x)
    {
      assert x != a ==> ItemsOf(queue'', x) == ItemsOf(queue', x);
    }
  }

  lemma IdleDone(queue: Accounts, queue': Accounts, locals: set<Address>, beats: map<Address, nat>, now: nat,
                 lifetime: nat)
    requires IdleSoFar(queue, queue', locals, beats, now, lifetime, {})
    ensures IdleDropped(queue, queue', locals, beats, now, lifetime)
  {
    hide ItemsOf, BeatOf;
  }
}
