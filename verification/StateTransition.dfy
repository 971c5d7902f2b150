/** core/state_transition.go: buying gas, running a message, refunding and paying the fee. */
module StateTransitions {
  import opened Transactions
  import opened GasPools
  import opened Words

  const TX_GAS: nat := 21000
  const TX_GAS_CONTRACT_CREATION: nat := 53000
  const TX_DATA_ZERO_GAS: nat := 4
  const TX_DATA_NON_ZERO_GAS_FRONTIER: nat := 68
  const TX_DATA_NON_ZERO_GAS_EIP2028: nat := 16
  const TX_ACCESS_LIST_ADDRESS_GAS: nat := 2400
  const TX_ACCESS_LIST_STORAGE_KEY_GAS: nat := 1900

  type Addr = nat
  type Balances = map<Addr, nat>

  // ---------------------------------------------------------------------
  // Intrinsic gas

  /** The storage keys of each address of an access list. */
  type AccessList = seq<nat>

  function Keys(list: AccessList): nat {
    if list == [] then 0 else Keys(list[..|list| - 1]) + list[|list| - 1]
  }

  function NonZero(data: seq<bv8>): nat {
    if data == [] then 0 else NonZero(data[..|data| - 1]) + if data[|data| - 1] != 0 then 1 else 0
  }

  lemma {:induction false} NonZeroBound(data: seq<bv8>)
    ensures NonZero(data) <= |data|
  {
    if data != [] { NonZeroBound(data[..|data| - 1]); }
  }

  /** The charge for everything but the access list, without any width limit. */
  function DataGas(data: seq<bv8>, creation: bool, homestead: bool, eip2028: bool): nat {
    NonZeroBound(data);
    (if creation && homestead then TX_GAS_CONTRACT_CREATION else TX_GAS)
    + NonZero(data) * (if eip2028 then TX_DATA_NON_ZERO_GAS_EIP2028 else TX_DATA_NON_ZERO_GAS_FRONTIER)
    + (|data| - NonZero(data)) * TX_DATA_ZERO_GAS
  }

  /** The whole charge of the protocol rules, without any width limit. */
  function FullGas(data: seq<bv8>, list: AccessList, creation: bool, homestead: bool, eip2028: bool): nat {
    DataGas(data, creation, homestead,
            eip2028) + |list| * TX_ACCESS_LIST_ADDRESS_GAS + Keys(list) * TX_ACCESS_LIST_STORAGE_KEY_GAS
  }

  /** IntrinsicGas: overflow in the data part is reported, overflow in the access list part
      wraps around, so the charge is the full one exactly when that fits 64 bits. */
  method IntrinsicGas(data: seq<bv8>, list: AccessList, creation: bool, homestead: bool, eip2028: bool)
      returns (gas: nat, overflow: bool)
    requires |data| < U64
    ensures overflow <==> DataGas(data, creation, homestead, eip2028) >= U64
    ensures gas == if overflow then 0 else FullGas(data, list, creation, homestead, eip2028) % U64
    ensures !overflow ==>
      (gas == FullGas(data, list, creation, homestead, eip2028) <==>
       FullGas(data, list, creation, homestead, eip2028) < U64)
  {
    hide FullGas, DataGas;
    if creation && homestead {
      gas := TX_GAS_CONTRACT_CREATION;
    } else {
      gas := TX_GAS;
    }
    ghost var base := gas;
    DataGasIs(data, creation, homestead, eip2028);
    if |data| > 0 {
      var nz := CountNonZero(data);
      var nonZeroGas := if eip2028 then TX_DATA_NON_ZERO_GAS_EIP2028 else TX_DATA_NON_ZERO_GAS_FRONTIER;
      gas, overflow := AddCharge(gas, nonZeroGas, nz);
      if overflow {
        return 0, true;
      }
      gas, overflow := AddCharge(gas, TX_DATA_ZERO_GAS, |data| - nz);
      if overflow {
        return 0, true;
      }
    }
    overflow := false;
    var keys := CountKeys(list);
    FullGasIs(data, list, creation, homestead, eip2028, gas);
    gas := (gas + |list| * TX_ACCESS_LIST_ADDRESS_GAS) % U64;
    gas := (gas + keys * TX_ACCESS_LIST_STORAGE_KEY_GAS) % U64;
  }

  /** The checked additions of IntrinsicGas: `n` items at `price` each. */
  method AddCharge(gas: nat, price: nat, n: nat) returns (r: nat, overflow: bool)
    requires gas < U64 && price > 0
    ensures overflow <==> gas + n * price >= U64
    ensures !overflow ==> r == gas + n * price
  {
    FitsBy(U64 - 1 - gas, price, n);
    if (U64 - 1 - gas) / price < n {
      return 0, true;
    }
    return gas + n * price, false;
  }

  lemma DataGasIs(data: seq<bv8>, creation: bool, homestead: bool, eip2028: bool)
    ensures NonZero(data) <= |data|
    ensures var base := if creation && homestead then TX_GAS_CONTRACT_CREATION else TX_GAS;
      var price := if eip2028 then TX_DATA_NON_ZERO_GAS_EIP2028 else TX_DATA_NON_ZERO_GAS_FRONTIER;
      && DataGas(data, creation, homestead, eip2028) ==
         base + NonZero(data) * price + (|data| - NonZero(data)) * TX_DATA_ZERO_GAS
      && (data == [] ==> DataGas(data, creation, homestead, eip2028) == base)
  {
    NonZeroBound(data);
  }

  /** The charge in the protocol's numbers. */
  lemma ChargesAre(data: seq<bv8>, list: AccessList, creation: bool, homestead: bool, eip2028: bool)
    ensures NonZero(data) <= |data|
    ensures FullGas(data, list, creation, homestead, eip2028) ==
      (if creation && homestead then 53000 else 21000) + (if eip2028 then 16 else 68) * NonZero(data)
        + 4 * (|data| - NonZero(data)) + 2400 * |list| + 1900 * Keys(list)
  {
    NonZeroBound(data);
  }

  lemma FullGasIs(data: seq<bv8>, list: AccessList, creation: bool, homestead: bool, eip2028: bool, gas: nat)
    requires gas == DataGas(data, creation, homestead, eip2028) < U64
    ensures var full := FullGas(data, list, creation, homestead, eip2028);
      && full % U64 ==
         ((gas + |list| * TX_ACCESS_LIST_ADDRESS_GAS) % U64 + Keys(list) * TX_ACCESS_LIST_STORAGE_KEY_GAS) % U64
      && (full % U64 == full <==> full < U64)
  {
    hide DataGas;
    WrapTwice(gas, |list| * TX_ACCESS_LIST_ADDRESS_GAS, Keys(list) * TX_ACCESS_LIST_STORAGE_KEY_GAS);
  }

  method CountNonZero(data: seq<bv8>) returns (nz: nat)
    ensures nz == NonZero(data)
  {
    nz := 0;
    for i := 0 to |data|
      invariant nz == NonZero(data[..i])
    {
      assert data[..i + 1][..i] == data[..i];
      if data[i] != 0 {
        nz := nz + 1;
      }
    }
    assert data[..|data|] == data;
  }

  method CountKeys(list: AccessList) returns (sum: nat)
    ensures sum == Keys(list)
  {
    sum := 0;
    for i := 0 to |list|
      invariant sum == Keys(list[..i])
    {
      assert list[..i + 1][..i] == list[..i];
      sum := sum + list[i];
    }
    assert list[..|list|] == list;
  }

  lemma FitsBy(room: nat, price: nat, n: nat)
    requires price > 0
    ensures room / price < n <==> n * price > room
  {
    var q := room / price;
    assert room == q * price + room % price;
    if q < n { assert (q + 1) * price <= n * price; } else { assert n * price <= q * price; }
  }

  lemma WrapTwice(a: nat, b: nat, c: nat)
    ensures ((a + b) % U64 + c) % U64 == (a + b + c) % U64
  {
  }

  // ---------------------------------------------------------------------
  // Balances

  function Balance(bs: Balances, a: Addr): nat {
    if a in bs then bs[a] else 0
  }

  function Credit(bs: Balances, a: Addr, amount: nat): Balances {
    bs[a := Balance(bs, a) + amount]
  }

  function Debit(bs: Balances, a: Addr, amount: nat): Balances
    requires amount <= Balance(bs, a)
  {
    bs[a := Balance(bs, a) - amount]
  }

  ghost function SupplyOf(bs: Balances, on: set<Addr>): nat {
    if on == {} then 0 else var a :| a in on; Balance(bs, a) + SupplyOf(bs, on - {a})
  }

  /** The sum of all balances. */
  ghost function Supply(bs: Balances): nat {
    SupplyOf(bs, bs.Keys)
  }

  lemma {:induction false} SupplyMinus(bs: Balances, on: set<Addr>, a: Addr)
    requires a in on
    ensures SupplyOf(bs, on) == Balance(bs, a) + SupplyOf(bs, on - {a})
    decreases |on|
  {
    var b :| b in on && SupplyOf(bs, on) == Balance(bs, b) + SupplyOf(bs, on - {b});
    if a != b {
      SupplyMinus(bs, on - {b}, a);
      SupplyMinus(bs, on - {a}, b);
      assert on - {a} - {b} == on - {b} - {a};
    }
  }

  lemma {:induction false} SupplySame(bs: Balances, bs': Balances, on: set<Addr>)
    requires forall a :: a in on ==> Balance(bs, a) == Balance(bs', a)
    ensures SupplyOf(bs, on) == SupplyOf(bs', on)
    decreases |on|
  {
    if on != {} {
      var a :| a in on;
      SupplyMinus(bs, on, a);
      SupplyMinus(bs', on, a);
      SupplySame(bs, bs', on - {a});
    }
  }

  /** Setting one balance moves the supply by the difference. */
  lemma SupplySet(bs: Balances, a: Addr, v: nat)
    ensures Supply(bs[a := v]) == Supply(bs) - Balance(bs, a) + v
  {
    var bs' := bs[a := v];
    SupplyMinus(bs', bs'.Keys, a);
    SupplySame(bs, bs', bs'.Keys - {a});
    if a in bs {
      SupplyMinus(bs, bs.Keys, a);
      assert bs'.Keys - {a} == bs.Keys - {a};
    } else {
      assert bs'.Keys - {a} == bs.Keys;
    }
  }

  // ---------------------------------------------------------------------
  // The transition

  datatype Message = Message(from: Addr, to: Option<Addr>, nonce: nat, checkNonce: bool, gas: nat, gasPrice: nat,
                             value: nat, data: seq<bv8>, list: AccessList)

  datatype World = World(balances: Balances, nonces: map<Addr, nat>)

  /** What a call or creation leaves behind: the state, the gas it burns (all of it if there
      is less), the refund counter and whether it failed. */
  datatype Outcome = Outcome(world: World, burned: nat, refund: nat, failed: bool)

  datatype Rules = Rules(homestead: bool, istanbul: bool, feeTo: Addr)

  datatype Error = NoError | NonceTooHigh | NonceTooLow | InsufficientFunds | GasLimitReached
                 | GasUintOverflow | IntrinsicGasTooLow | InsufficientFundsForTransfer | Panic

  predicate InPreCheck(e: Error) {
    e == NonceTooHigh || e == NonceTooLow || e == InsufficientFunds || e == GasLimitReached
  }

  function NonceOf(w: World, a: Addr): nat {
    if a in w.nonces then w.nonces[a] else 0
  }

  /** The price of gas. */
  function Fee(gas: nat, price: nat): nat {
    gas * price
  }

  /** The first consensus rule the message breaks. */
  function FirstError(w: World, pool: nat, msg: Message, rules: Rules): Error {
    var fee := Fee(msg.gas, msg.gasPrice);
    if msg.checkNonce && NonceOf(w, msg.from) < msg.nonce then NonceTooHigh
    else if msg.checkNonce && NonceOf(w, msg.from) > msg.nonce then NonceTooLow
    else if Balance(w.balances, msg.from) < fee then InsufficientFunds
    else if pool < msg.gas then GasLimitReached
    else if DataGas(msg.data, msg.to.None?, rules.homestead, rules.istanbul) >= U64 then GasUintOverflow
    else if msg.gas < Intrinsic(msg, rules) then IntrinsicGasTooLow
    else if msg.value > 0 && Balance(w.balances, msg.from) - fee < msg.value then InsufficientFundsForTransfer
    else NoError
  }

  function Intrinsic(msg: Message, rules: Rules): nat {
    FullGas(msg.data, msg.list, msg.to.None?, rules.homestead, rules.istanbul) % U64
  }

  function Paid(w: World, msg: Message): World
    requires Fee(msg.gas, msg.gasPrice) <= Balance(w.balances, msg.from)
  {
    w.(balances := Debit(w.balances, msg.from, Fee(msg.gas, msg.gasPrice)))
  }

  /** The state in which the EVM starts. */
  function AtCall(w: World, msg: Message): World
    requires Fee(msg.gas, msg.gasPrice) <= Balance(w.balances, msg.from)
  {
    var p := Paid(w, msg);
    if msg.to.None? then p else p.(nonces := p.nonces[msg.from := NonceOf(p, msg.from) + 1])
  }

  function Min(a: nat, b: nat): nat {
    if a < b then a else b
  }

  lemma MinBound(a: nat, b: nat)
    ensures Min(a, b) <= b
  {
  }

  /** Gas spent before refunds: the intrinsic charge and what the call burned. */
  function Spent(gas: nat, charge: nat, o: Outcome): nat
    requires charge <= gas
  {
    charge + Min(o.burned, gas - charge)
  }

  /** Gas used after the refund, which gives back at most half. */
  function Used(gas: nat, charge: nat, o: Outcome): nat
    requires charge <= gas
  {
    Spent(gas, charge, o) - Min(Spent(gas, charge, o) / 2, o.refund)
  }

  /** The used gas is at least half of what was spent and at most what was bought. */
  lemma UsedBounds(gas: nat, charge: nat, o: Outcome)
    requires charge <= gas
    ensures Spent(gas, charge, o) <= 2 * Used(gas, charge, o) && Used(gas, charge, o) <= Spent(gas, charge, o) <= gas
    ensures charge <= Spent(gas, charge, o)
  {
  }

  lemma UsedIs(gas: nat, charge: nat, o: Outcome, left: nat)
    requires charge <= gas && left == gas - charge - Min(o.burned, gas - charge)
    ensures left <= gas && Used(gas, charge, o) == gas - (left + Min((gas - left) / 2, o.refund))
  {
  }

  /** The final balances: unused gas back to the sender, used gas to the fee recipient. */
  function Settled(bs: Balances, msg: Message, feeTo: Addr, used: nat): Balances
    requires used <= msg.gas
  {
    Credit(Credit(bs, msg.from, Fee(msg.gas - used, msg.gasPrice)), feeTo, Fee(used, msg.gasPrice))
  }

  lemma FeeSplit(a: nat, b: nat, price: nat)
    ensures Fee(a, price) + Fee(b, price) == Fee(a + b, price)
  {
  }

  /** Whatever the EVM did to the supply is all that happens to it: the gas bought is paid
      back in full to sender and fee recipient together. */
  lemma SupplyConserved(w: World, msg: Message, feeTo: Addr, bs: Balances, used: nat)
    requires used <= msg.gas && Fee(msg.gas, msg.gasPrice) <= Balance(w.balances, msg.from)
    ensures Supply(Settled(bs, msg, feeTo, used)) - Supply(w.balances) == Supply(bs) - Supply(AtCall(w, msg).balances)
  {
    hide Fee, Supply, Balance;
    var fee, back, kept := Fee(msg.gas, msg.gasPrice), Fee(msg.gas - used, msg.gasPrice), Fee(used, msg.gasPrice);
    FeeSplit(msg.gas - used, used, msg.gasPrice);
    SupplySet(w.balances, msg.from, Balance(w.balances, msg.from) - fee);
    var mid := Credit(bs, msg.from, back);
    SupplySet(bs, msg.from, Balance(bs, msg.from) + back);
    SupplySet(mid, feeTo, Balance(mid, feeTo) + kept);
  }

  // ---------------------------------------------------------------------
  // What a transition does, in gas times price

  ghost predicate NonceFits(w: World, msg: Message) {
    msg.checkNonce ==> NonceOf(w, msg.from) == msg.nonce
  }

  /** The sender pays for all the gas up front and, for a call, uses up a nonce; nobody else is
      touched. */
  ghost predicate Charged(w: World, start: World, msg: Message) {
    && Balance(w.balances, msg.from) == Balance(start.balances, msg.from) + msg.gas * msg.gasPrice
    && (forall a: Addr :: a != msg.from ==> Balance(start.balances, a) == Balance(w.balances, a))
    && NonceOf(start, msg.from) == NonceOf(w, msg.from) + (if msg.to.Some? then 1 else 0)
    && (forall a: Addr :: a != msg.from ==> NonceOf(start, a) == NonceOf(w, a))
  }

  /** The unused gas goes back to the sender and the used gas to the fee recipient. */
  ghost predicate PaidOut(left: World, w: World, msg: Message, feeTo: Addr, used: nat) {
    && used <= msg.gas && w.nonces == left.nonces
    && (forall a: Addr ::
          Balance(w.balances, a) == Balance(left.balances, a)
            + (if a == msg.from then (msg.gas - used) * msg.gasPrice else 0)
            + (if a == feeTo then used * msg.gasPrice else 0))
  }

  /** When each error is reported, rule by rule. */
  ghost predicate Reports(w: World, pool: nat, msg: Message, rules: Rules, err: Error) {
    var affords := NonceFits(w, msg) && Balance(w.balances, msg.from) >= msg.gas * msg.gasPrice;
    && (err == NonceTooHigh <==> msg.checkNonce && NonceOf(w, msg.from) < msg.nonce)
    && (err == NonceTooLow <==> msg.checkNonce && NonceOf(w, msg.from) > msg.nonce)
    && (err == InsufficientFunds <==> NonceFits(w, msg) && Balance(w.balances, msg.from) < msg.gas * msg.gasPrice)
    && (err == GasLimitReached <==> affords && pool < msg.gas)
    && (err == NoError ==> affords && msg.gas <= pool && Intrinsic(msg, rules) <= msg.gas)
    && (err == NoError && msg.value > 0 ==> Balance(w.balances, msg.from) >= msg.gas * msg.gasPrice + msg.value)
    && (err == InsufficientFundsForTransfer ==>
        affords && msg.value > 0 && Balance(w.balances, msg.from) < msg.gas * msg.gasPrice + msg.value)
  }

  lemma ErrorsAre(w: World, pool: nat, msg: Message, rules: Rules)
    ensures Reports(w, pool, msg, rules, FirstError(w, pool, msg, rules))
  {
    hide DataGas, Intrinsic, Balance;
  }

  lemma ChargedAtCall(w: World, msg: Message)
    requires msg.gas * msg.gasPrice <= Balance(w.balances, msg.from)
    ensures Fee(msg.gas, msg.gasPrice) <= Balance(w.balances, msg.from) && Charged(w, AtCall(w, msg), msg)
  {
  }

  lemma SettledPaysOut(left: World, msg: Message, feeTo: Addr, used: nat)
    requires used <= msg.gas
    ensures PaidOut(left, left.(balances := Settled(left.balances, msg, feeTo, used)), msg, feeTo, used)
  {
  }

  class StateDB {
    var world: World

    constructor (w: World)
      ensures world == w
    {
      world := w;
    }
  }

  class StateTransition {
    const gp: GasPool
    const state: StateDB
    const msg: Message
    const rules: Rules
    var gas: nat
    var initialGas: nat

    constructor (pool: GasPool, db: StateDB, m: Message, r: Rules)
      ensures gp == pool && state == db && msg == m && rules == r && gas == 0 && initialGas == 0
    {
      gp, state, msg, rules, gas, initialGas := pool, db, m, r, 0, 0;
    }

    ghost predicate Valid()
      reads gp
    {
      gp.Valid() && msg.gas < U64 && |msg.data| < U64
    }

    function GasUsed(): nat
      requires gas <= initialGas
      reads this
    {
      initialGas - gas
    }

    /** buyGas */
    method BuyGas() returns (err: Error)
      requires Valid() && gas == 0
      modifies this, gp, state
      ensures Valid() && InBuyGas(err) && (err != NoError ==> state.world == old(state.world) && gp.gas == old(gp.gas))
      ensures err == InsufficientFunds <==> Balance(old(state.world).balances, msg.from) < Fee(msg.gas, msg.gasPrice)
      ensures err == GasLimitReached <==>
        Balance(old(state.world).balances, msg.from) >= Fee(msg.gas, msg.gasPrice) && old(gp.gas) < msg.gas
      ensures err == NoError ==>
        gas == initialGas == msg.gas && gp.gas == old(gp.gas) - msg.gas && state.world == Paid(old(state.world), msg)
    {
      var mgval := Fee(msg.gas, msg.gasPrice);
      if Balance(state.world.balances, msg.from) < mgval {
        return InsufficientFunds;
      }
      var ok := gp.SubGas(msg.gas);
      if !ok {
        return GasLimitReached;
      }
      gas := gas + msg.gas;
      initialGas := msg.gas;
      state.world := state.world.(balances := Debit(state.world.balances, msg.from, mgval));
      err := NoError;
    }

    /** preCheck */
    method PreCheck() returns (err: Error)
      requires Valid() && gas == 0
      modifies this, gp, state
      ensures Valid() && (err == NoError || InPreCheck(err))
      ensures err ==
        (var e := FirstError(old(state.world), old(gp.gas), msg, rules); if InPreCheck(e) then e else NoError)
      ensures err != NoError ==> state.world == old(state.world) && gp.gas == old(gp.gas)
      ensures err == NoError ==>
        Balance(old(state.world).balances, msg.from) >= Fee(msg.gas, msg.gasPrice) && old(gp.gas) >= msg.gas
      ensures err == NoError ==>
        gas == initialGas == msg.gas && gp.gas == old(gp.gas) - msg.gas && state.world == Paid(old(state.world), msg)
    {
      hide DataGas, Intrinsic, Debit;
      if msg.checkNonce {
        var nonce := NonceOf(state.world, msg.from);
        if nonce < msg.nonce {
          return NonceTooHigh;
        } else if nonce > msg.nonce {
          return NonceTooLow;
        }
      }
      err := BuyGas();
    }

    /** What a successful transition from the world `w` and the pool `pool` has done. */
    ghost predicate Succeeded(w: World, pool: nat, run: (World, nat) -> Outcome, used: nat, failed: bool)
      requires Fee(msg.gas, msg.gasPrice) <= Balance(w.balances, msg.from)
      reads gp, state
    {
      var charge := Intrinsic(msg, rules);
      && charge <= msg.gas
      && var o := run(AtCall(w, msg), msg.gas - charge);
      && used == Used(msg.gas, charge, o) && used <= msg.gas && gp.gas == pool - used && failed == o.failed
      && state.world == o.world.(balances := Settled(o.world.balances, msg, rules.feeTo, used))
    }

    lemma SuccessPays(w: World, pool: nat, run: (World, nat) -> Outcome, used: nat, failed: bool)
      requires Fee(msg.gas, msg.gasPrice) <= Balance(w.balances, msg.from) && Succeeded(w, pool, run, used, failed)
      requires Reports(w, pool, msg, rules, NoError)
      ensures Charged(w, AtCall(w, msg), msg)
      ensures PaidOut(run(AtCall(w, msg), msg.gas - Intrinsic(msg, rules)).world, state.world, msg, rules.feeTo, used)
    {
      hide Intrinsic, Fee, Balance, Used, Settled, Charged, PaidOut;
      ChargedAtCall(w, msg);
      SettledPaysOut(run(AtCall(w, msg), msg.gas - Intrinsic(msg, rules)).world, msg, rules.feeTo, used);
    }

    /** TransitionDb, for any EVM `run`. On success the pool is down by exactly the gas used and
        the balances are settled; the overflow panic of the pool is never reached. A failure in
        the pre-check changes nothing, a later one leaves the gas bought. */
    method TransitionDb(run: (World, nat) -> Outcome) returns (used: nat, failed: bool, err: Error)
      requires Valid() && gas == 0
      modifies this, gp, state
      ensures Valid() && err != Panic && err == FirstError(old(state.world), old(gp.gas), msg, rules)
      ensures InPreCheck(err) ==> state.world == old(state.world) && gp.gas == old(gp.gas)
      ensures !InPreCheck(err) ==> Balance(old(state.world).balances, msg.from) >= Fee(msg.gas, msg.gasPrice)
      ensures err != NoError && !InPreCheck(err) ==>
        gp.gas == old(gp.gas) - msg.gas && state.world == Paid(old(state.world), msg)
      ensures err == NoError ==> Succeeded(old(state.world), old(gp.gas), run, used, failed)
      ensures Reports(old(state.world), old(gp.gas), msg, rules, err) && (err != NoError ==> used == 0 && !failed)
      ensures err == NoError ==> exists start ::
        && Charged(old(state.world), start, msg)
        && PaidOut(run(start, msg.gas - Intrinsic(msg, rules)).world, state.world, msg, rules.feeTo, used)
    {
      hide FullGas, DataGas, Debit, Intrinsic, Fee, Balance, StateTransition.Succeeded, Reports, Charged, PaidOut;
      used, failed := 0, false;
      ErrorsAre(state.world, gp.gas, msg, rules);
      err := PreCheck();
      if err != NoError {
        return;
      }
      var creation := msg.to.None?;
      var charge, overflow := IntrinsicGas(msg.data, msg.list, creation, rules.homestead, rules.istanbul);
      ChargeIs(msg, rules);
      PaidBalance(old(state.world), msg);
      if overflow {
        err := GasUintOverflow;
        return;
      }
      if gas < charge {
        err := IntrinsicGasTooLow;
        return;
      }
      gas := gas - charge;
      if msg.value > 0 && Balance(state.world.balances, msg.from) < msg.value {
        err := InsufficientFundsForTransfer;
        return;
      }
      used, failed := Execute(run, charge, old(state.world), old(gp.gas));
      SuccessPays(old(state.world), old(gp.gas), run, used, failed);
    }

    /** The part of TransitionDb after the checks: call or create, refund, fee. */
    method Execute(run: (World, nat) -> Outcome, charge: nat, ghost w: World, ghost pool: nat)
        returns (used: nat, failed: bool)
      requires Valid() && charge == Intrinsic(msg, rules) <= msg.gas == initialGas && gas == msg.gas - charge
      requires Fee(msg.gas, msg.gasPrice) <= Balance(w.balances, msg.from) && state.world == Paid(w, msg)
      requires msg.gas <= pool < U64 && gp.gas == pool - msg.gas
      modifies this, gp, state
      ensures Valid() && Succeeded(w, pool, run, used, failed)
    {
      hide Debit, Intrinsic, Fee, Balance, Credit, Used, Min;
      if msg.to.Some? {
        state.world := state.world.(nonces := state.world.nonces[msg.from := NonceOf(state.world, msg.from) + 1]);
      }
      var o := run(state.world, gas);
      state.world := o.world;
      MinBound(o.burned, gas);
      gas := gas - Min(o.burned, gas);
      failed := o.failed;
      UsedBounds(msg.gas, charge, o);
      UsedIs(msg.gas, charge, o, gas);
      var panicked := RefundGas(o.refund);
      if panicked {
        assert false;
      }
      state.world := state.world.(balances := Credit(state.world.balances, rules.feeTo, Fee(GasUsed(), msg.gasPrice)));
      used := GasUsed();
    }

    /** refundGas: half of the used gas at most comes back. */
    method RefundGas(refundCounter: nat) returns (panicked: bool)
      requires gp.Valid() && gas <= initialGas < U64
      modifies this, gp, state
      ensures gp.Valid() && initialGas == old(initialGas) && old(gas) <= gas <= initialGas
      ensures gas == old(gas) + Min((initialGas - old(gas)) / 2, refundCounter)
      ensures panicked <==> old(gp.gas) + gas >= U64
      ensures !panicked ==> gp.gas == old(gp.gas) + gas
      ensures state.world ==
        old(state.world).(balances := Credit(old(state.world).balances, msg.from, Fee(gas, msg.gasPrice)))
    {
      var refund := GasUsed() / 2;
      if refund > refundCounter {
        refund := refundCounter;
      }
      gas := gas + refund;
      state.world := state.world.(balances := Credit(state.world.balances, msg.from, Fee(gas, msg.gasPrice)));
      panicked := gp.AddGas(gas);
    }
  }

  lemma PaidBalance(w: World, msg: Message)
    requires Fee(msg.gas, msg.gasPrice) <= Balance(w.balances, msg.from)
    ensures Balance(Paid(w, msg).balances, msg.from) == Balance(w.balances, msg.from) - Fee(msg.gas, msg.gasPrice)
  {
    hide Fee;
  }

  lemma ChargeIs(msg: Message, rules: Rules)
    ensures Intrinsic(msg, rules) == FullGas(msg.data, msg.list, msg.to.None?, rules.homestead, rules.istanbul) % U64
  {
  }

  predicate InBuyGas(e: Error) {
    e == NoError || e == InsufficientFunds || e == GasLimitReached
  }

  /** A message that pays for its gas but not for its intrinsic charge: it fails after the gas
      has been bought. */
  lemma LateFailureExample(rules: Rules)
    ensures var msg := Message(1, Some(2), 0, true, 20000, 1, 0, [], []); var w := World(map[1 := 30000], map[]);
      && FirstError(w, 100000, msg, rules) == IntrinsicGasTooLow && !InPreCheck(IntrinsicGasTooLow)
      && Balance(Paid(w, msg).balances, 1) == 10000
  {
    var msg := Message(1, Some(2), 0, true, 20000, 1, 0, [], []);
    assert FullGas([], [], false, rules.homestead, rules.istanbul) == TX_GAS;
    assert Fee(20000, 1) == 20000 && Intrinsic(msg, rules) == TX_GAS;
  }

  /** An access list long enough to wrap the charge. */
  lemma AccessListWraps(list: AccessList)
    requires |list| >= 7686143364045647
    ensures FullGas([], list, false, true, true) >= U64
      && FullGas([], list, false, true, true) % U64 != FullGas([], list, false, true, true)
  {
  }
}
