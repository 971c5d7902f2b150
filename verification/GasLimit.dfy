/** core/block_validator.go: the gas limit a miner aims for. */
module GasLimits {
  import opened Words

  const GAS_LIMIT_BOUND_DIVISOR: nat := 256
  const MIN_GAS_LIMIT: nat := 5000

  /** CalcGasLimit, in 64-bit arithmetic. */
  function CalcGasLimit(limit: nat, used: nat, gasFloor: nat, gasCeil: nat): nat {
    var contrib := Add(used, used / 2) / GAS_LIMIT_BOUND_DIVISOR;
    var decay := Sub(limit / GAS_LIMIT_BOUND_DIVISOR, 1);
    var aim := Add(Sub(limit, decay), contrib);
    var next := if aim < MIN_GAS_LIMIT then MIN_GAS_LIMIT else aim;
    if next < gasFloor then
      var up := Add(limit, decay);
      if up > gasFloor then gasFloor else up
    else if next > gasCeil then
      var down := Sub(limit, decay);
      if down < gasCeil then gasCeil else down
    else next
  }

  /** A parent block and a target range for which nothing overflows. */
  predicate Sound(limit: nat, used: nat, gasFloor: nat, gasCeil: nat) {
    MIN_GAS_LIMIT <= limit && limit + limit / 2 < U64 && used <= limit && MIN_GAS_LIMIT <= gasFloor <= gasCeil
  }

  predicate InRange(limit: nat, gasFloor: nat, gasCeil: nat) {
    gasFloor <= limit <= gasCeil
  }

  /** The unclamped aim without any wrap-around, and how far it is from the parent. */
  lemma Aim(limit: nat, used: nat)
    requires MIN_GAS_LIMIT <= limit && limit + limit / 2 < U64 && used <= limit
    ensures var q := limit / GAS_LIMIT_BOUND_DIVISOR;
      var aim := Add(Sub(limit, Sub(q, 1)), Add(used, used / 2) / GAS_LIMIT_BOUND_DIVISOR);
      && q >= 19 && limit - q < aim < limit + q && aim < U64
      && Sub(q, 1) == q - 1 && Sub(limit, q - 1) == limit - (q - 1) && Add(limit, q - 1) == limit + q - 1
  {
    hide Add, Sub;
    var q := limit / GAS_LIMIT_BOUND_DIVISOR;
    Contribution(limit, used);
    AddPlain(used, used / 2);
    SubPlain(q, 1);
    SubPlain(limit, q - 1);
    AddPlain(limit, q - 1);
    AddPlain(limit - (q - 1), (used + used / 2) / GAS_LIMIT_BOUND_DIVISOR);
  }

  lemma Contribution(limit: nat, used: nat)
    requires MIN_GAS_LIMIT <= limit && used <= limit
    ensures var q := limit / GAS_LIMIT_BOUND_DIVISOR;
      q >= 19 && 2 * ((used + used / 2) / GAS_LIMIT_BOUND_DIVISOR) <= 3 * q + 3 && 256 * q <= limit
        && used + used / 2 <= limit + limit / 2
  {
  }

  lemma AddPlain(a: nat, b: nat)
    requires a + b < U64
    ensures Add(a, b) == a + b
  {
  }

  lemma SubPlain(a: nat, b: nat)
    requires b <= a < U64
    ensures Sub(a, b) == a - b
  {
  }

  /** Each limit differs from its parent's by strictly less than the parent's 256th part and
      never falls below the minimum. */
  lemma StepBound(limit: nat, used: nat, gasFloor: nat, gasCeil: nat)
    requires Sound(limit, used, gasFloor, gasCeil)
    ensures var next, q := CalcGasLimit(limit, used, gasFloor, gasCeil), limit / GAS_LIMIT_BOUND_DIVISOR;
      limit - q < next < limit + q && next >= MIN_GAS_LIMIT == 5000
  {
    hide Add, Sub;
    Aim(limit, used);
  }

  /** A limit in the target range stays there. */
  lemma StaysInRange(limit: nat, used: nat, gasFloor: nat, gasCeil: nat)
    requires Sound(limit, used, gasFloor, gasCeil) && InRange(limit, gasFloor, gasCeil)
    ensures InRange(CalcGasLimit(limit, used, gasFloor, gasCeil), gasFloor, gasCeil)
  {
    hide Add, Sub;
    Aim(limit, used);
  }

  /** Inside the range the next limit is the parent's, less its 256th part and plus the 256th
      part of one and a half times the gas used, brought back into the range. */
  lemma NextInRange(limit: nat, used: nat, gasFloor: nat, gasCeil: nat)
    requires Sound(limit, used, gasFloor, gasCeil) && InRange(limit, gasFloor, gasCeil)
    ensures var aim := limit - limit / 256 + 1 + (used + used / 2) / 256;
      CalcGasLimit(limit, used, gasFloor, gasCeil) ==
        if aim < gasFloor then gasFloor else if aim > gasCeil then gasCeil else aim
  {
    hide Add, Sub;
    Aim(limit, used);
    AimIs(limit, used);
  }

  /** The more gas was used the higher the next limit; full blocks raise it while it is below the
      ceiling, empty ones lower it while it is above the floor. */
  lemma FollowsUse(limit: nat, used: nat, more: nat, gasFloor: nat, gasCeil: nat)
    requires Sound(limit, more, gasFloor, gasCeil) && InRange(limit, gasFloor, gasCeil) && used <= more
    ensures CalcGasLimit(limit, used, gasFloor, gasCeil) <= CalcGasLimit(limit, more, gasFloor, gasCeil)
    ensures used + used / 2 >= limit ==> CalcGasLimit(limit, used, gasFloor, gasCeil) >= limit
    ensures more == limit && limit < gasCeil ==> CalcGasLimit(limit, more, gasFloor, gasCeil) > limit
    ensures used == 0 && limit > gasFloor ==> CalcGasLimit(limit, used, gasFloor, gasCeil) < limit
  {
    hide CalcGasLimit;
    NextInRange(limit, used, gasFloor, gasCeil);
    NextInRange(limit, more, gasFloor, gasCeil);
  }

  lemma AimIs(limit: nat, used: nat)
    requires MIN_GAS_LIMIT <= limit && limit + limit / 2 < U64 && used <= limit
    ensures Add(Sub(limit, Sub(limit / GAS_LIMIT_BOUND_DIVISOR, 1)), Add(used, used / 2) / GAS_LIMIT_BOUND_DIVISOR) ==
      limit - limit / 256 + 1 + (used + used / 2) / 256
  {
    hide Add, Sub;
    var q := limit / GAS_LIMIT_BOUND_DIVISOR;
    Contribution(limit, used);
    AddPlain(used, used / 2);
    SubPlain(q, 1);
    SubPlain(limit, q - 1);
    AddPlain(limit - (q - 1), (used + used / 2) / GAS_LIMIT_BOUND_DIVISOR);
  }

  /** Below the range the next limit is the parent's plus its 256th part but for one, up to the
      floor, unless use alone already takes it there; above the range it comes down likewise. */
  lemma NextOutside(limit: nat, used: nat, gasFloor: nat, gasCeil: nat)
    requires Sound(limit, used, gasFloor, gasCeil) && !InRange(limit, gasFloor, gasCeil)
    ensures var next, step := CalcGasLimit(limit, used, gasFloor, gasCeil), limit / 256 - 1;
      && (limit < gasFloor ==>
          next == limit + step || (gasFloor <= next <= gasCeil && next <= limit + step + 1))
      && (limit > gasCeil ==>
          next == limit - step || (gasFloor <= next <= gasCeil && next >= limit - step))
  {
    hide Add, Sub;
    Aim(limit, used);
    AimIs(limit, used);
  }

  function Distance(limit: nat, gasFloor: nat, gasCeil: nat): nat {
    if limit < gasFloor then gasFloor - limit else if limit > gasCeil then limit - gasCeil else 0
  }

  /** Outside the range, each block comes at least 18 closer or gets there. */
  lemma Approaches(limit: nat, used: nat, gasFloor: nat, gasCeil: nat)
    requires Sound(limit, used, gasFloor, gasCeil)
    ensures var next := CalcGasLimit(limit, used, gasFloor, gasCeil);
      && (InRange(next, gasFloor, gasCeil)
          || Distance(next, gasFloor, gasCeil) + 18 <= Distance(limit, gasFloor, gasCeil))
      && (next <= limit || next <= gasCeil)
  {
    hide Add, Sub;
    Aim(limit, used);
  }

  /** The limit after blocks using `useds` one after the other. */
  function Iterate(limit: nat, useds: seq<nat>, gasFloor: nat, gasCeil: nat): nat
    decreases |useds|
  {
    if useds == [] then limit
      else Iterate(CalcGasLimit(limit, useds[0], gasFloor, gasCeil), useds[1..], gasFloor, gasCeil)
  }

  /** No block uses more than its limit. */
  predicate Usable(limit: nat, useds: seq<nat>, gasFloor: nat, gasCeil: nat)
    decreases |useds|
  {
    useds == []
      || (useds[0] <= limit && Usable(CalcGasLimit(limit, useds[0], gasFloor, gasCeil), useds[1..], gasFloor, gasCeil))
  }

  predicate Start(limit: nat, gasFloor: nat, gasCeil: nat) {
    MIN_GAS_LIMIT <= limit && limit + limit / 2 < U64 && MIN_GAS_LIMIT <= gasFloor <= gasCeil
      && gasCeil + gasCeil / 2 < U64
  }

  /** Over any run of blocks the limit keeps the minimum, a limit in range stays in range, and
      from anywhere the range is reached once the blocks, at 18 each, cover the distance. */
  lemma {:induction false} Converges(limit: nat, useds: seq<nat>, gasFloor: nat, gasCeil: nat)
    requires Start(limit, gasFloor, gasCeil) && Usable(limit, useds, gasFloor, gasCeil)
    ensures Iterate(limit, useds, gasFloor, gasCeil) >= MIN_GAS_LIMIT
    ensures 18 * |useds| >= Distance(limit, gasFloor, gasCeil) ==>
      InRange(Iterate(limit, useds, gasFloor, gasCeil), gasFloor, gasCeil)
    decreases |useds|
  {
    hide CalcGasLimit;
    if useds != [] {
      var next := CalcGasLimit(limit, useds[0], gasFloor, gasCeil);
      StepBound(limit, useds[0], gasFloor, gasCeil);
      Approaches(limit, useds[0], gasFloor, gasCeil);
      if InRange(limit, gasFloor, gasCeil) { StaysInRange(limit, useds[0], gasFloor, gasCeil); }
      Converges(next, useds[1..], gasFloor, gasCeil);
    }
  }
}
