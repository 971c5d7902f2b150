/** core/gaspool.go: the gas left in a block. */
module GasPools {
  import opened Words

  class GasPool {
    var gas: nat

    ghost predicate Valid()
      reads this
    {
      gas < U64
    }

    constructor ()
      ensures gas == 0
    {
      gas := 0;
    }

    /** AddGas; `panicked` when the sum does not fit 64 bits. */
    method AddGas(amount: nat) returns (panicked: bool)
      requires Valid() && amount < U64
      modifies this
      ensures Valid() && (panicked <==> old(gas) + amount >= U64)
      ensures gas == if panicked then old(gas) else old(gas) + amount
    {
      if gas > U64 - 1 - amount {
        return true;
      }
      gas := gas + amount;
      panicked := false;
    }

    /** SubGas; fails when there is not enough. */
    method SubGas(amount: nat) returns (ok: bool)
      requires Valid()
      modifies this
      ensures Valid() && (ok <==> amount <= old(gas))
      ensures gas == if ok then old(gas) - amount else old(gas)
    {
      if gas < amount {
        return false;
      }
      gas := gas - amount;
      ok := true;
    }
  }
}
