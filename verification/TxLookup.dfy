/** core/tx_pool.go, txLookup, and core/tx_noncer.go, txNoncer. */
module TxLookups {
  import opened Transactions

  /** The slots taken by a set of transactions. */
  ghost function SumSlots(s: set<Tx>): nat {
    if s == {} then 0 else var t :| t in s; t.Slots() + SumSlots(s - {t})
  }

  /** The sum does not depend on the order of summation. */
  lemma {:induction false} SumSlotsMinus(s: set<Tx>, t: Tx)
    requires t in s
    ensures SumSlots(s) == t.Slots() + SumSlots(s - {t})
    decreases |s|
  {
    var u :| u in s && SumSlots(s) == u.Slots() + SumSlots(s - {u});
    if u != t {
      SumSlotsMinus(s - {u}, t);
      SumSlotsMinus(s - {t}, u);
      assert s - {u} - {t} == s - {t} - {u};
    }
  }

  lemma SumSlotsPlus(s: set<Tx>, t: Tx)
    requires t !in s
    ensures SumSlots(s + {t}) == t.Slots() + SumSlots(s)
  {
    SumSlotsMinus(s + {t}, t);
    assert s + {t} - {t} == s;
  }

  /** Every transaction takes at least one slot. */
  lemma {:induction false} SlotsCoverCount(s: set<Tx>)
    ensures |s| <= SumSlots(s)
    decreases |s|
  {
    if s != {} {
      var t :| t in s;
      SumSlotsMinus(s, t);
      SlotsCoverCount(s - {t});
    }
  }

  class TxLookup {
    var slots: int
    var locals: set<Tx>
    var remotes: set<Tx>

    ghost predicate Valid()
      reads this
    {
      locals !! remotes && slots == SumSlots(locals + remotes)
    }

    ghost function All(): set<Tx>
      reads this
    {
      locals + remotes
    }

    constructor ()
      ensures Valid() && All() == {}
    {
      slots, locals, remotes := 0, {}, {};
    }

    lemma Disjoint()
      requires Valid()
      ensures locals !! remotes && slots == SumSlots(All())
    {
    }

    method Has(tx: Tx) returns (known: bool)
      ensures known == (tx in All())
    {
      known := tx in locals || tx in remotes;
    }

    method Count() returns (n: nat)
      requires Valid()
      ensures n == |All()|
    {
      n := |locals| + |remotes|;
    }

    method Add(tx: Tx, local: bool)
      modifies this
      ensures locals == old(locals) + (if local then {tx} else {})
      ensures remotes == old(remotes) + (if local then {} else {tx})
      ensures old(Valid()) && tx !in old(All()) ==> Valid()
    {
      SumIfNew(locals + remotes, tx);
      slots := slots + tx.Slots();
      if local {
        locals := locals + {tx};
      } else {
        remotes := remotes + {tx};
      }
      assert locals + remotes == old(locals + remotes) + {tx};
    }

    method Remove(tx: Tx)
      requires Valid()
      modifies this
      ensures Valid() && locals == old(locals) - {tx} && remotes == old(remotes) - {tx}
    {
      if tx !in locals && tx !in remotes {
        return;
      }
      SumSlotsMinus(locals + remotes, tx);
      slots := slots - tx.Slots();
      locals, remotes := locals - {tx}, remotes - {tx};
      assert locals + remotes == old(locals + remotes) - {tx};
    }

    /** Moves the transactions of the given accounts over to the locals. */
    method RemoteToLocals(accounts: set<Address>) returns (migrated: nat)
      requires Valid()
      modifies this
      ensures Valid() && All() == old(All())
      ensures forall t :: t in remotes <==> t in old(remotes) && t.from !in accounts
      ensures migrated == |old(remotes)| - |remotes|
    {
      migrated := 0;
      var todo := remotes;
      while todo != {}
        invariant Valid() && All() == old(All()) && todo <= remotes <= old(remotes)
        invariant forall t :: t in remotes && t !in todo ==> t.from !in accounts
        invariant forall t :: t in old(remotes) && t !in remotes ==> t.from in accounts
        invariant migrated == |old(remotes)| - |remotes|
        decreases |todo|
      {
        var tx :| tx in todo;
        if tx.from in accounts {
          assert (locals + {tx}) + (remotes - {tx}) == locals + remotes;
          locals, remotes := locals + {tx}, remotes - {tx};
          migrated := migrated + 1;
        }
        todo := todo - {tx};
      }
    }
  }

  lemma SumIfNew(s: set<Tx>, tx: Tx)
    ensures tx !in s ==> SumSlots(s + {tx}) == SumSlots(s) + tx.Slots()
  {
    if tx !in s { SumSlotsPlus(s, tx); }
  }

  /** The part of the chain state the pool reads. */
  datatype ChainState = ChainState(nonces: map<Address, nat>, balances: map<Address, nat>)
  {
    function NonceOf(a: Address): nat { if a in nonces then nonces[a] else 0 }
    function BalanceOf(a: Address): nat { if a in balances then balances[a] else 0 }
  }

  /** What the pool regards as the next nonce of `a`. */
  function NextIn(state: ChainState, nonces: map<Address, nat>, a: Address): nat {
    if a in nonces then nonces[a] else state.NonceOf(a)
  }

  /** The virtual nonces of all accounts but `a` agree. */
  ghost predicate NextsElsewhere(a: Address, state: ChainState, n: map<Address, nat>, n': map<Address, nat>) {
    forall b :: b != a ==> NextIn(state, n, b) == NextIn(state, n', b)
  }

  lemma NextsTrans(a: Address, state: ChainState, n: map<Address, nat>, n': map<Address, nat>, n'': map<Address, nat>)
    requires NextsElsewhere(a, state, n, n') && NextsElsewhere(a, state, n', n'')
    ensures NextsElsewhere(a, state, n, n'')
  {
  }

  /** Virtual nonces, falling back to the chain state for accounts not seen yet. */
  class TxNoncer {
    const fallback: ChainState
    var nonces: map<Address, nat>

    ghost function Next(a: Address): nat
      reads this
    {
      NextIn(fallback, nonces, a)
    }

    constructor (state: ChainState)
      ensures fallback == state && nonces == map[]
    {
      fallback, nonces := state, map[];
    }

    method Get(a: Address) returns (n: nat)
      modifies this
      ensures n == Next(a) == old(Next(a)) && NextsElsewhere(a, fallback, old(nonces), nonces)
    {
      if a !in nonces {
        nonces := nonces[a := fallback.NonceOf(a)];
      }
      n := nonces[a];
    }

    method Set(a: Address, n: nat)
      modifies this
      ensures Next(a) == n && NextsElsewhere(a, fallback, old(nonces), nonces)
    {
      nonces := nonces[a := n];
    }

    method SetIfLower(a: Address, n: nat)
      modifies this
      ensures Next(a) == (if n < old(Next(a)) then n else old(Next(a)))
      ensures NextsElsewhere(a, fallback, old(nonces), nonces)
    {
      if a !in nonces {
        nonces := nonces[a := fallback.NonceOf(a)];
      }
      if nonces[a] <= n {
        return;
      }
      nonces := nonces[a := n];
    }
  }
}
